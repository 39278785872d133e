/** The authentication-metrics service: recording one event, and the
    aggregations over the stored events (false-positive rate of 2FA,
    authentication success rate, response-time statistics, and the
    per-period breakdown). */
module MetricsService {

  import opened Js
  import opened AuthMetricsSchema

  /** The AuthMetrics collection, oldest first. */
  type Log = seq<AuthMetric>

  datatype RecordError = ValidationError

  /** `recordAuthMetric`: the event is validated, stamped with `now` and
      appended; a refused document is rethrown and nothing is stored. */
  function RecordAuthMetric(log: Log, input: MetricInput, now: int): (r: Result<(AuthMetric, Log), RecordError>)
    ensures r.Success? <==> input.userId.Some? && TruthyStr(input.username) && input.success.Some?
                            && ParseAuthType(input.authType).Some?
    ensures r.Success? ==> r.value.1 == log + [r.value.0] && r.value.0.timestamp == now
                           && AuthTypeName(r.value.0.authType) == input.authType
                           && r.value.0.success == input.success.value
                           && r.value.0.responseTime == input.responseTime
                           && r.value.0.errorType == input.errorType
  {
    match CastMetric(input, now)
    case Some(m) => Success((m, log + [m]))
    case None => Failure(ValidationError)
  }

  // ---------------------------------------------------------------------
  // Match conditions

  /** The optional time window and user of a request; a window bound that
      is absent (or empty) is `None`. */
  datatype Scope = Scope(start: Option<int>, end: Option<int>, userId: Option<Id>)

  /** The window applies only when both bounds are given, inclusive at both
      ends; the user filter only when a user is given. */
  predicate InScope(s: Scope, m: AuthMetric) {
    && (s.start.Some? && s.end.Some? ==> s.start.value <= m.timestamp <= s.end.value)
    && (s.userId.Some? ==> m.userId == s.userId.value)
  }

  /** A value inside an aggregation stage as the database compares it:
      values of different BSON types are never equal, so an ObjectId never
      equals a string, whatever its text. */
  datatype Bson = ObjectIdValue(id: Id) | StringValue(text: string)

  /** A record's `userId` as stored: an ObjectId. */
  function StoredUserId(m: AuthMetric): Bson {
    ObjectIdValue(m.userId)
  }

  /** The user filter as written: the query's user id stays a string inside
      an aggregation `$match`, which the ODM does not cast, and is compared
      with the stored ObjectId as it is. */
  predicate InScopeAsWritten(start: Option<int>, end: Option<int>, userParam: Option<string>, m: AuthMetric) {
    && (start.Some? && end.Some? ==> start.value <= m.timestamp <= end.value)
    && (userParam.Some? ==> StoredUserId(m) == StringValue(userParam.value))
  }

  /** As written, asking for any user's metrics selects no record at all,
      whereas the intended filter keeps exactly that user's records. */
  lemma UserFilterAsWrittenSelectsNothing(log: Log, start: Option<int>, end: Option<int>, u: string, id: Id)
    ensures forall m :: m in log ==> !InScopeAsWritten(start, end, Some(u), m)
    ensures forall m :: m in log && m.userId == id && InScope(Scope(start, end, None), m)
              ==> InScope(Scope(start, end, Some(id)), m)
  {
  }

  const AllTypes: set<AuthType> := {Login, TwoFaVerify, LoginAttempt}

  /** A `$match` stage: allowed types, an optional required outcome, whether
      a non-null `responseTime` is required, and the request scope. */
  datatype Query = Query(types: set<AuthType>, success: Option<bool>, timed: bool, scope: Scope)

  predicate Matches(q: Query, m: AuthMetric) {
    && m.authType in q.types
    && (q.success.Some? ==> m.success == q.success.value)
    && (q.timed ==> m.responseTime.Some?)
    && InScope(q.scope, m)
  }

  /** The records the stage lets through, in collection order. */
  function Select(log: Log, q: Query): (r: Log)
    ensures |r| <= |log|
    ensures forall m :: m in r <==> m in log && Matches(q, m)
  {
    if |log| == 0 then []
    else
      assert forall m :: m in log <==> m == log[0] || m in log[1..];
      (if Matches(q, log[0]) then [log[0]] else []) + Select(log[1..], q)
  }

  lemma {:induction false} SelectAppend(a: Log, b: Log, q: Query)
    ensures Select(a + b, q) == Select(a, q) + Select(b, q)
  {
    if |a| > 0 {
      assert (a + b)[1..] == a[1..] + b;
      SelectAppend(a[1..], b, q);
    } else {
      assert a + b == b;
    }
  }

  /** A stricter query selects no more records. */
  lemma {:induction false} SelectNarrower(log: Log, q: Query, q': Query)
    requires forall m :: Matches(q', m) ==> Matches(q, m)
    ensures |Select(log, q')| <= |Select(log, q)|
  {
    if |log| > 0 {
      SelectNarrower(log[1..], q, q');
    }
  }

  /** `value / total * 100`, and 0 for an empty total. */
  function Percent(part: nat, total: nat): (r: real)
    requires part <= total
    ensures 0.0 <= r <= 100.0
    ensures total == 0 ==> r == 0.0
    ensures total > 0 ==> r * total as real == part as real * 100.0
  {
    if total == 0 then 0.0
    else
      var f := part as real / total as real;
      assert f * total as real == part as real;
      assert f <= 1.0 by {
        assert (1.0 - f) * total as real == (total - part) as real;
      }
      f * 100.0
  }

  // ---------------------------------------------------------------------
  // getFalsePositiveRate

  datatype FalsePositiveStats = FalsePositiveStats(totalAttempts: nat, failedAttempts: nat, falsePositiveRate: real)

  function TwoFaAttempts(s: Scope): Query {
    Query({TwoFaVerify}, None, false, s)
  }

  function TwoFaFailures(s: Scope): Query {
    Query({TwoFaVerify}, Some(false), false, s)
  }

  /** Over the `2fa_verify` records in scope: how many there are, how many
      failed, and the failed share as a percentage (0 when there are none,
      which is also the default document). */
  function FalsePositiveRate(log: Log, s: Scope): (r: FalsePositiveStats)
    ensures r.totalAttempts == |Select(log, TwoFaAttempts(s))|
    ensures r.failedAttempts == |Select(log, TwoFaFailures(s))|
    ensures r.failedAttempts <= r.totalAttempts
    ensures 0.0 <= r.falsePositiveRate <= 100.0
    ensures r.totalAttempts == 0 ==> r.failedAttempts == 0 && r.falsePositiveRate == 0.0
    ensures r.falsePositiveRate == Percent(r.failedAttempts, r.totalAttempts)
  {
    var total := |Select(log, TwoFaAttempts(s))|;
    var failed := |Select(log, TwoFaFailures(s))|;
    SelectNarrower(log, TwoFaAttempts(s), TwoFaFailures(s));
    FalsePositiveStats(total, failed, Percent(failed, total))
  }

  // ---------------------------------------------------------------------
  // getAuthSuccessRate

  datatype SuccessStats = SuccessStats(totalAttempts: nat, successfulAttempts: nat, successRate: real)

  function AuthAttempts(s: Scope): Query {
    Query({Login, TwoFaVerify}, None, false, s)
  }

  function AuthSuccesses(s: Scope): Query {
    Query({Login, TwoFaVerify}, Some(true), false, s)
  }

  /** Over the `login` and `2fa_verify` records in scope: how many, how many
      succeeded, and the succeeded share as a percentage. */
  function AuthSuccessRate(log: Log, s: Scope): (r: SuccessStats)
    ensures r.totalAttempts == |Select(log, AuthAttempts(s))|
    ensures r.successfulAttempts == |Select(log, AuthSuccesses(s))|
    ensures r.successfulAttempts <= r.totalAttempts
    ensures 0.0 <= r.successRate <= 100.0
    ensures r.totalAttempts == 0 ==> r.successfulAttempts == 0 && r.successRate == 0.0
    ensures r.successRate == Percent(r.successfulAttempts, r.totalAttempts)
  {
    var total := |Select(log, AuthAttempts(s))|;
    var ok := |Select(log, AuthSuccesses(s))|;
    SelectNarrower(log, AuthAttempts(s), AuthSuccesses(s));
    SuccessStats(total, ok, Percent(ok, total))
  }

  /** A `login_attempt` record, successful or not, never moves the success
      rate, and never moves the false-positive rate either. */
  lemma {:induction false} LoginAttemptsNeverCount(log: Log, m: AuthMetric, s: Scope)
    requires m.authType == LoginAttempt
    ensures AuthSuccessRate(log + [m], s) == AuthSuccessRate(log, s)
    ensures FalsePositiveRate(log + [m], s) == FalsePositiveRate(log, s)
  {
    SelectAppend(log, [m], AuthAttempts(s));
    SelectAppend(log, [m], AuthSuccesses(s));
    SelectAppend(log, [m], TwoFaAttempts(s));
    SelectAppend(log, [m], TwoFaFailures(s));
    assert log + [m] != [] ==> Select([m], AuthAttempts(s)) == [];
  }

  /** A failed 2FA verification inside the scope adds one attempt and one
      failure. */
  lemma {:induction false} FailedVerifyCounts(log: Log, m: AuthMetric, s: Scope)
    requires m.authType == TwoFaVerify && !m.success && InScope(s, m)
    ensures FalsePositiveRate(log + [m], s).totalAttempts == FalsePositiveRate(log, s).totalAttempts + 1
    ensures FalsePositiveRate(log + [m], s).failedAttempts == FalsePositiveRate(log, s).failedAttempts + 1
  {
    SelectAppend(log, [m], TwoFaAttempts(s));
    SelectAppend(log, [m], TwoFaFailures(s));
  }

  // ---------------------------------------------------------------------
  // getAverageResponseTime

  datatype ResponseStats = ResponseStats(averageResponseTime: real, minResponseTime: int,
                                         maxResponseTime: int, totalSessions: nat)

  /** Successful records of any type, in scope, whose `responseTime` is set. */
  function TimedSuccesses(s: Scope): Query {
    Query(AllTypes, Some(true), true, s)
  }

  /** The response times of the records that carry one, in log order. */
  function Times(log: Log): (r: seq<int>)
    ensures |r| <= |log|
    ensures (forall m :: m in log ==> m.responseTime.Some?) ==> |r| == |log|
    ensures forall x :: x in r <==> exists m :: m in log && m.responseTime == Some(x)
  {
    if |log| == 0 then []
    else
      var rest := Times(log[1..]);
      assert forall m :: m in log <==> m == log[0] || m in log[1..];
      (if log[0].responseTime.Some? then [log[0].responseTime.value] else []) + rest
  }

  /** Response times keep the log order: those of a concatenation are those
      of the first part followed by those of the second. */
  lemma {:induction false} TimesAppend(a: Log, b: Log)
    ensures Times(a + b) == Times(a) + Times(b)
  {
    if |a| > 0 {
      assert (a + b)[1..] == a[1..] + b;
      TimesAppend(a[1..], b);
    } else {
      assert a + b == b;
    }
  }

  function Sum(xs: seq<int>): int {
    if |xs| == 0 then 0 else xs[0] + Sum(xs[1..])
  }

  function MinOf(xs: seq<int>): (r: int)
    requires |xs| > 0
    ensures r in xs && forall x :: x in xs ==> r <= x
  {
    if |xs| == 1 then xs[0]
    else
      var m := MinOf(xs[1..]);
      assert forall x :: x in xs ==> x == xs[0] || x in xs[1..];
      if xs[0] <= m then xs[0] else m
  }

  function MaxOf(xs: seq<int>): (r: int)
    requires |xs| > 0
    ensures r in xs && forall x :: x in xs ==> x <= r
  {
    if |xs| == 1 then xs[0]
    else
      var m := MaxOf(xs[1..]);
      assert forall x :: x in xs ==> x == xs[0] || x in xs[1..];
      if xs[0] >= m then xs[0] else m
  }

  /** The sum lies between count times the minimum and count times the maximum. */
  lemma {:induction false} SumBetween(xs: seq<int>, lo: int, hi: int)
    requires forall x :: x in xs ==> lo <= x <= hi
    ensures lo * |xs| <= Sum(xs) <= hi * |xs|
  {
    if |xs| > 0 {
      assert forall x :: x in xs[1..] ==> x in xs;
      SumBetween(xs[1..], lo, hi);
      var k := |xs[1..]|;
      assert Sum(xs) == xs[0] + Sum(xs[1..]);
      assert xs[0] in xs;
      assert lo * (k + 1) == lo * k + lo && hi * (k + 1) == hi * k + hi;
    }
  }

  lemma {:induction false} CastMul(a: int, b: nat)
    ensures (a * b) as real == a as real * b as real
  {
    if b > 0 {
      CastMul(a, b - 1);
      assert a * b == a * (b - 1) + a;
    }
  }

  lemma QuotientBetween(total: real, n: real, lo: real, hi: real)
    requires n > 0.0 && lo * n <= total <= hi * n
    ensures lo <= total / n <= hi
  {
  }

  /** Integer bounds on a total carry over to its real quotient. */
  lemma MeanBounds(total: int, n: nat, lo: int, hi: int)
    requires n > 0 && lo * n <= total <= hi * n
    ensures lo as real <= total as real / n as real <= hi as real
  {
    CastMul(lo, n);
    CastMul(hi, n);
    QuotientBetween(total as real, n as real, lo as real, hi as real);
  }

  /** The arithmetic mean of a non-empty sequence, between its extremes. */
  function Mean(xs: seq<int>): (r: real)
    requires |xs| > 0
    ensures MinOf(xs) as real <= r <= MaxOf(xs) as real
    ensures r == Sum(xs) as real / |xs| as real
  {
    SumBetween(xs, MinOf(xs), MaxOf(xs));
    MeanBounds(Sum(xs), |xs|, MinOf(xs), MaxOf(xs));
    Sum(xs) as real / |xs| as real
  }

  /** Over the timed successful records in scope: mean, minimum, maximum and
      count; all zero when there are none (the default document). */
  function AverageResponseTime(log: Log, s: Scope): (r: ResponseStats)
    ensures var xs := Times(Select(log, TimedSuccesses(s)));
            && r.totalSessions == |Select(log, TimedSuccesses(s))| == |xs|
            && (r.totalSessions == 0 ==> r == ResponseStats(0.0, 0, 0, 0))
            && (r.totalSessions > 0 ==>
                  && r.minResponseTime in xs && r.maxResponseTime in xs
                  && (forall x :: x in xs ==> r.minResponseTime <= x <= r.maxResponseTime)
                  && r.minResponseTime as real <= r.averageResponseTime <= r.maxResponseTime as real
                  && r.averageResponseTime == Mean(xs))
  {
    var recs := Select(log, TimedSuccesses(s));
    var xs := Times(recs);
    if |xs| == 0 then ResponseStats(0.0, 0, 0, 0)
    else ResponseStats(Mean(xs), MinOf(xs), MaxOf(xs), |xs|)
  }

  // ---------------------------------------------------------------------
  // getCompleteMetrics

  datatype CompleteStats = CompleteStats(falsePositiveRate: FalsePositiveStats, successRate: SuccessStats,
                                         responseTime: ResponseStats, generatedAt: int)

  /** The three aggregations over one and the same scope, stamped with `now`.
      They run concurrently in the source; here they run one after the other. */
  function CompleteMetrics(log: Log, s: Scope, now: int): (r: CompleteStats)
    ensures r.falsePositiveRate.totalAttempts == |Select(log, TwoFaAttempts(s))|
    ensures r.successRate.totalAttempts == |Select(log, AuthAttempts(s))|
    ensures r.responseTime.totalSessions == |Select(log, TimedSuccesses(s))|
    ensures r.falsePositiveRate == FalsePositiveRate(log, s) && r.successRate == AuthSuccessRate(log, s)
    ensures r.responseTime == AverageResponseTime(log, s) && r.generatedAt == now
  {
    CompleteStats(FalsePositiveRate(log, s), AuthSuccessRate(log, s), AverageResponseTime(log, s), now)
  }

  // ---------------------------------------------------------------------
  // getMetricsByPeriod: grouping keys

  datatype Period = Hourly | Daily | Weekly | Monthly

  /** The `switch`: any other name groups like `daily`. */
  function PeriodOf(name: string): (p: Period)
    ensures name !in {"hourly", "weekly", "monthly"} ==> p == Daily
  {
    if name == "hourly" then Hourly
    else if name == "weekly" then Weekly
    else if name == "monthly" then Monthly
    else Daily
  }

  /** What `$year`, `$month`, `$week`, `$dayOfMonth` and `$hour` give for a
      timestamp; the calendar itself is a parameter. */
  datatype DateParts = DateParts(year: int, month: int, week: int, day: int, hour: int)

  /** A group's `_id`: the date parts the period groups by, absent fields `None`. */
  datatype PeriodKey = PeriodKey(year: int, month: Option<int>, week: Option<int>, day: Option<int>, hour: Option<int>)

  function KeyOf(p: Period, d: DateParts): (k: PeriodKey)
    ensures k.year == d.year
    ensures k.hour.Some? <==> p == Hourly
    ensures k.week.Some? <==> p == Weekly
    ensures k.day.Some? <==> p == Hourly || p == Daily
    ensures k.month.Some? <==> p != Weekly
  {
    match p
    case Hourly => PeriodKey(d.year, Some(d.month), None, Some(d.day), Some(d.hour))
    case Daily => PeriodKey(d.year, Some(d.month), None, Some(d.day), None)
    case Weekly => PeriodKey(d.year, None, Some(d.week), None, None)
    case Monthly => PeriodKey(d.year, Some(d.month), None, None, None)
  }

  /** An unknown period name groups exactly like `daily`. */
  lemma UnknownPeriodIsDaily(name: string, d: DateParts)
    requires name !in {"hourly", "daily", "weekly", "monthly"}
    ensures KeyOf(PeriodOf(name), d) == KeyOf(Daily, d)
  {
  }

  // ---------------------------------------------------------------------
  // getMetricsByPeriod: ordering of groups

  /** BSON order on an optional number: a missing field sorts below every number. */
  predicate OptGt(x: Option<int>, y: Option<int>) {
    x.Some? && (y.None? || x.value > y.value)
  }

  /** Strict lexicographic "greater" on equally long sort keys. */
  predicate LexGt(xs: seq<Option<int>>, ys: seq<Option<int>>)
    requires |xs| == |ys|
  {
    |xs| > 0 && (OptGt(xs[0], ys[0]) || (xs[0] == ys[0] && LexGt(xs[1..], ys[1..])))
  }

  lemma {:induction false} LexGtTransitive(xs: seq<Option<int>>, ys: seq<Option<int>>, zs: seq<Option<int>>)
    requires |xs| == |ys| == |zs|
    requires LexGt(xs, ys) && LexGt(ys, zs)
    ensures LexGt(xs, zs)
  {
    if xs[0] == ys[0] && ys[0] == zs[0] {
      LexGtTransitive(xs[1..], ys[1..], zs[1..]);
    }
  }

  lemma {:induction false} LexGtTotal(xs: seq<Option<int>>, ys: seq<Option<int>>)
    requires |xs| == |ys| && xs != ys
    ensures LexGt(xs, ys) || LexGt(ys, xs)
  {
    if xs[0] == ys[0] {
      assert xs == [xs[0]] + xs[1..] && ys == [ys[0]] + ys[1..];
      LexGtTotal(xs[1..], ys[1..]);
    }
  }

  lemma {:induction false} LexGtAsymmetric(xs: seq<Option<int>>, ys: seq<Option<int>>)
    requires |xs| == |ys| && LexGt(xs, ys)
    ensures !LexGt(ys, xs)
  {
    if xs[0] == ys[0] {
      LexGtAsymmetric(xs[1..], ys[1..]);
    }
  }

  /** The `$sort` stage as written: year, month, day, all descending. */
  function SortKeyAsWritten(k: PeriodKey): seq<Option<int>> {
    [Some(k.year), k.month, k.day]
  }

  /** As written, two different weekly groups of one year (or two hourly
      groups of one day) have the same sort key, so their order, and which
      of them `$limit` keeps, is left to the database. */
  lemma WeeklyGroupsUnordered()
    ensures var a := KeyOf(Weekly, DateParts(2024, 1, 1, 1, 0));
            var b := KeyOf(Weekly, DateParts(2024, 1, 2, 8, 0));
            a != b && SortKeyAsWritten(a) == SortKeyAsWritten(b)
            && !LexGt(SortKeyAsWritten(a), SortKeyAsWritten(b)) && !LexGt(SortKeyAsWritten(b), SortKeyAsWritten(a))
    ensures var a := KeyOf(Hourly, DateParts(2024, 3, 10, 5, 9));
            var b := KeyOf(Hourly, DateParts(2024, 3, 10, 5, 17));
            a != b && SortKeyAsWritten(a) == SortKeyAsWritten(b)
  {
    var a := KeyOf(Weekly, DateParts(2024, 1, 1, 1, 0));
    var b := KeyOf(Weekly, DateParts(2024, 1, 2, 8, 0));
    assert SortKeyAsWritten(a)[1..] == SortKeyAsWritten(b)[1..];
    assert SortKeyAsWritten(a)[1..][1..] == SortKeyAsWritten(b)[1..][1..];
  }

  /** The corrected sort: every part of the key, newest first. */
  function SortKey(k: PeriodKey): (r: seq<Option<int>>)
    ensures |r| == 5
  {
    [Some(k.year), k.month, k.week, k.day, k.hour]
  }

  /** Different groups always have different sort keys, so the corrected
      order is total and the groups `$limit` keeps are determined. */
  lemma SortKeyInjective(a: PeriodKey, b: PeriodKey)
    requires a != b
    ensures LexGt(SortKey(a), SortKey(b)) || LexGt(SortKey(b), SortKey(a))
  {
    LexGtTotal(SortKey(a), SortKey(b));
  }

  /** `a` comes before `b` in the (corrected) newest-first order. */
  predicate Newer(a: PeriodKey, b: PeriodKey) {
    LexGt(SortKey(a), SortKey(b))
  }

  // ---------------------------------------------------------------------
  // getMetricsByPeriod: groups

  datatype PeriodGroup = PeriodGroup(
    period: PeriodKey,
    totalAttempts: nat,
    successfulAttempts: nat,
    failedAttempts: nat,
    successRate: real,
    avgResponseTime: Option<real>)

  /** The records of `recs` that fall into group `k`. */
  function WithKey(recs: Log, p: Period, cal: int -> DateParts, k: PeriodKey): (r: Log)
    ensures |r| <= |recs|
    ensures forall m :: m in r <==> m in recs && KeyOf(p, cal(m.timestamp)) == k
  {
    if |recs| == 0 then []
    else
      assert forall m :: m in recs <==> m == recs[0] || m in recs[1..];
      (if KeyOf(p, cal(recs[0].timestamp)) == k then [recs[0]] else []) + WithKey(recs[1..], p, cal, k)
  }

  /** The records with the given outcome. */
  function WithOutcome(recs: Log, ok: bool): (r: Log)
    ensures forall m :: m in r <==> m in recs && m.success == ok
  {
    if |recs| == 0 then []
    else
      assert forall m :: m in recs <==> m == recs[0] || m in recs[1..];
      (if recs[0].success == ok then [recs[0]] else []) + WithOutcome(recs[1..], ok)
  }

  /** Every record either succeeded or failed. */
  lemma {:induction false} OutcomesPartition(recs: Log)
    ensures |WithOutcome(recs, true)| + |WithOutcome(recs, false)| == |recs|
  {
    if |recs| > 0 {
      OutcomesPartition(recs[1..]);
    }
  }

  /** One `$group` document and its `$project`: counts by outcome, the
      success percentage, and the mean of the set response times (null when
      none is set; the rounding to two decimals is not modelled). */
  function GroupOf(recs: Log, p: Period, cal: int -> DateParts, k: PeriodKey): (g: PeriodGroup)
    ensures g.period == k
    ensures g.totalAttempts == |WithKey(recs, p, cal, k)|
    ensures g.successfulAttempts == |WithOutcome(WithKey(recs, p, cal, k), true)|
    ensures g.successfulAttempts + g.failedAttempts == g.totalAttempts
    ensures 0.0 <= g.successRate <= 100.0
    ensures g.successRate == Percent(g.successfulAttempts, g.totalAttempts)
    ensures g.avgResponseTime.None? <==> |Times(WithKey(recs, p, cal, k))| == 0
  {
    var members := WithKey(recs, p, cal, k);
    var ok := |WithOutcome(members, true)|;
    var failed := |WithOutcome(members, false)|;
    OutcomesPartition(members);
    var xs := Times(members);
    PeriodGroup(k, |members|, ok, failed, Percent(ok, |members|),
                if |xs| == 0 then None else Some(Sum(xs) as real / |xs| as real))
  }

  /** The distinct group keys of `recs`. */
  function KeysIn(recs: Log, p: Period, cal: int -> DateParts): (ks: seq<PeriodKey>)
    ensures forall i, j :: 0 <= i < j < |ks| ==> ks[i] != ks[j]
    ensures forall k :: k in ks <==> exists m :: m in recs && KeyOf(p, cal(m.timestamp)) == k
  {
    if |recs| == 0 then []
    else
      var rest := KeysIn(recs[1..], p, cal);
      var k := KeyOf(p, cal(recs[0].timestamp));
      assert forall m :: m in recs <==> m == recs[0] || m in recs[1..];
      if k in rest then rest else [k] + rest
  }

  predicate NewestFirst(gs: seq<PeriodGroup>) {
    forall i, j :: 0 <= i < j < |gs| ==> Newer(gs[i].period, gs[j].period)
  }

  /** A group newer than every group of a newest-first sequence can go first. */
  lemma ConsNewestFirst(g: PeriodGroup, t: seq<PeriodGroup>)
    requires NewestFirst(t)
    requires forall j :: 0 <= j < |t| ==> Newer(g.period, t[j].period)
    ensures NewestFirst([g] + t)
  {
    var r := [g] + t;
    forall i, j | 0 <= i < j < |r|
      ensures Newer(r[i].period, r[j].period)
    {
      assert r[j] == t[j - 1];
      if i > 0 {
        assert r[i] == t[i - 1];
      }
    }
  }

  /** Inserts a group in front of the first group it is newer than. */
  function InsertGroup(gs: seq<PeriodGroup>, g: PeriodGroup): (r: seq<PeriodGroup>)
    ensures |r| == |gs| + 1
    ensures forall h :: h in r <==> h in gs || h == g
  {
    if |gs| == 0 then [g]
    else if Newer(g.period, gs[0].period) then [g] + gs
    else
      assert forall h :: h in gs <==> h == gs[0] || h in gs[1..];
      [gs[0]] + InsertGroup(gs[1..], g)
  }

  /** Inserting a group with a new key keeps a sequence newest first. */
  lemma {:induction false} InsertGroupNewestFirst(gs: seq<PeriodGroup>, g: PeriodGroup)
    requires NewestFirst(gs)
    requires forall h :: h in gs ==> h.period != g.period
    ensures NewestFirst(InsertGroup(gs, g))
  {
    if |gs| == 0 {
    } else if Newer(g.period, gs[0].period) {
      forall j | 0 <= j < |gs|
        ensures Newer(g.period, gs[j].period)
      {
        if j > 0 {
          LexGtTransitive(SortKey(g.period), SortKey(gs[0].period), SortKey(gs[j].period));
        }
      }
      ConsNewestFirst(g, gs);
    } else {
      assert gs[0] in gs;
      SortKeyInjective(g.period, gs[0].period);
      var rest := gs[1..];
      assert NewestFirst(rest) by {
        forall i, j | 0 <= i < j < |rest|
          ensures Newer(rest[i].period, rest[j].period)
        {
          assert rest[i] == gs[i + 1] && rest[j] == gs[j + 1];
        }
      }
      assert forall h :: h in rest ==> h in gs;
      InsertGroupNewestFirst(rest, g);
      var t := InsertGroup(rest, g);
      forall j | 0 <= j < |t|
        ensures Newer(gs[0].period, t[j].period)
      {
        assert t[j] in t;
        if t[j] != g {
          var m :| 0 <= m < |rest| && rest[m] == t[j];
          assert gs[m + 1] == t[j];
        }
      }
      ConsNewestFirst(gs[0], t);
    }
  }

  /** The `$sort` stage (corrected) on groups with pairwise different keys. */
  function SortGroups(gs: seq<PeriodGroup>): (r: seq<PeriodGroup>)
    requires forall i, j :: 0 <= i < j < |gs| ==> gs[i].period != gs[j].period
    ensures NewestFirst(r)
    ensures |r| == |gs|
    ensures forall h :: h in r <==> h in gs
  {
    if |gs| == 0 then []
    else
      var rest := SortGroups(gs[1..]);
      forall h | h in rest
        ensures h.period != gs[0].period
      {
        var m :| 0 <= m < |gs[1..]| && gs[1..][m] == h;
        assert gs[m + 1] == h;
      }
      assert forall h :: h in gs <==> h == gs[0] || h in gs[1..];
      InsertGroupNewestFirst(rest, gs[0]);
      InsertGroup(rest, gs[0])
  }

  /** `view` is the collection read with `sort({ timestamp: -1 })`: the same
      records, newest first (the order of equal timestamps is the database's). */
  predicate SortedNewestFirst(log: Log, view: Log) {
    && multiset(view) == multiset(log)
    && forall i, j :: 0 <= i < j < |view| ==> view[i].timestamp >= view[j].timestamp
  }

  /** The `$sort: { timestamp: -1 }` then `$limit: limit * 100` stages. */
  function Recent(byNewest: Log, n: nat): (r: Log)
    ensures |r| <= n * 100 && |r| <= |byNewest| && r == byNewest[..|r|]
    ensures |r| < n * 100 ==> r == byNewest
  {
    if n * 100 <= |byNewest| then byNewest[..n * 100] else byNewest
  }

  /** The records the by-period stages keep are stored records, and none is
      older than a record they drop. */
  lemma RecentAreNewest(log: Log, view: Log, n: nat)
    requires SortedNewestFirst(log, view)
    ensures forall m :: m in Recent(view, n) ==> m in log
    ensures forall i, j :: 0 <= i < |Recent(view, n)| <= j < |view| ==> view[i].timestamp >= view[j].timestamp
  {
    var r := Recent(view, n);
    forall m | m in r
      ensures m in log
    {
      assert m in view;
      assert m in multiset(view);
    }
  }

  /** The `$group` and `$project` stages: one group per distinct key. */
  function GroupsOf(recent: Log, p: Period, cal: int -> DateParts): (gs: seq<PeriodGroup>)
    ensures |gs| == |KeysIn(recent, p, cal)|
    ensures forall i :: 0 <= i < |gs| ==>
              gs[i] == GroupOf(recent, p, cal, KeysIn(recent, p, cal)[i]) && gs[i].period == KeysIn(recent, p, cal)[i]
  {
    var ks := KeysIn(recent, p, cal);
    seq(|ks|, i requires 0 <= i < |ks| => GroupOf(recent, p, cal, ks[i]))
  }

  /** The `$limit: limit` stage. */
  function Take(s: seq<PeriodGroup>, n: nat): (r: seq<PeriodGroup>)
    ensures |r| <= n && |r| <= |s| && r == s[..|r|]
    ensures |r| < n ==> r == s
  {
    if |s| <= n then s else s[..n]
  }

  /** The `$group`, `$project`, `$sort` and `$limit: limit` stages. */
  function Grouped(recent: Log, p: Period, cal: int -> DateParts, n: nat): seq<PeriodGroup> {
    Take(SortGroups(GroupsOf(recent, p, cal)), n)
  }

  /** What the by-period answer promises: at most `n` groups, newest first,
      each the exact aggregate of its key with successful + failed = total;
      a key of a considered record is missing only when `n` newer groups
      filled the answer. */
  predicate NewestGroups(recent: Log, p: Period, cal: int -> DateParts, n: nat, out: seq<PeriodGroup>) {
    && |out| <= n
    && NewestFirst(out)
    && (forall g :: g in out ==>
          && g == GroupOf(recent, p, cal, g.period)
          && g.totalAttempts > 0
          && g.successfulAttempts + g.failedAttempts == g.totalAttempts)
    && (forall m :: m in recent ==>
          var k := KeyOf(p, cal(m.timestamp));
          (exists g :: g in out && g.period == k)
          || (|out| == n && forall g :: g in out ==> Newer(g.period, k)))
  }

  /** `getMetricsByPeriod(period, limit)`. `byNewest` is the collection as
      `$sort: { timestamp: -1 }` delivers it and `cal` the calendar; a
      missing, zero or negative `limit` makes `$limit` fail. */
  function MetricsByPeriod(byNewest: Log, periodName: string, limit: Option<int>, cal: int -> DateParts)
    : (r: Result<seq<PeriodGroup>, RecordError>)
    ensures r.Failure? <==> limit.None? || limit.value <= 0
    ensures r.Success? ==>
              NewestGroups(Recent(byNewest, limit.value), PeriodOf(periodName), cal, limit.value, r.value)
  {
    if limit.None? || limit.value <= 0 then Failure(ValidationError)
    else
      var n := limit.value;
      var recent := Recent(byNewest, n);
      GroupedIsNewest(recent, PeriodOf(periodName), cal, n);
      Success(Grouped(recent, PeriodOf(periodName), cal, n))
  }

  /** Every group kept is the exact aggregate of its key over the recent
      records, and is non-empty. */
  lemma GroupsExact(recent: Log, p: Period, cal: int -> DateParts, ks: seq<PeriodKey>,
                    gs: seq<PeriodGroup>, out: seq<PeriodGroup>)
    requires ks == KeysIn(recent, p, cal)
    requires |gs| == |ks| && forall i :: 0 <= i < |ks| ==> gs[i] == GroupOf(recent, p, cal, ks[i])
    requires forall g :: g in out ==> g in gs
    ensures forall g :: g in out ==>
              && g == GroupOf(recent, p, cal, g.period)
              && g.totalAttempts > 0
              && g.successfulAttempts + g.failedAttempts == g.totalAttempts
  {
    forall g | g in out
      ensures && g == GroupOf(recent, p, cal, g.period)
              && g.totalAttempts > 0
              && g.successfulAttempts + g.failedAttempts == g.totalAttempts
    {
      var i :| 0 <= i < |gs| && gs[i] == g;
      assert ks[i] in ks;
      var m :| m in recent && KeyOf(p, cal(m.timestamp)) == ks[i];
      assert m in WithKey(recent, p, cal, ks[i]);
    }
  }

  /** The kept prefix of the newest-first groups holds every key, or is full
      and holds only keys newer than the missing one. */
  lemma PrefixKeepsNewest(sorted: seq<PeriodGroup>, n: int, g0: PeriodGroup)
    requires n > 0 && NewestFirst(sorted) && g0 in sorted
    ensures var out := Take(sorted, n);
            g0 in out || (|out| == n && forall g :: g in out ==> Newer(g.period, g0.period))
  {
    var out := Take(sorted, n);
    var j :| 0 <= j < |sorted| && sorted[j] == g0;
    if j < |out| {
      assert out[j] == g0;
    } else {
      forall g | g in out
        ensures Newer(g.period, g0.period)
      {
        var a :| 0 <= a < |out| && out[a] == g;
        assert sorted[a] == g;
      }
    }
  }

  /** A key of any considered record is kept, or `n` newer groups were kept. */
  lemma KeysCovered(recent: Log, p: Period, cal: int -> DateParts, sorted: seq<PeriodGroup>, n: nat)
    requires n > 0
    requires NewestFirst(sorted) && forall g :: g in sorted <==> g in GroupsOf(recent, p, cal)
    ensures var out := Take(sorted, n);
            forall m :: m in recent ==>
              var k := KeyOf(p, cal(m.timestamp));
              (exists g :: g in out && g.period == k)
              || (|out| == n && forall g :: g in out ==> Newer(g.period, k))
  {
    var ks := KeysIn(recent, p, cal);
    var gs := GroupsOf(recent, p, cal);
    var out := Take(sorted, n);
    forall m | m in recent
      ensures var k := KeyOf(p, cal(m.timestamp));
              (exists g :: g in out && g.period == k)
              || (|out| == n && forall g :: g in out ==> Newer(g.period, k))
    {
      var k := KeyOf(p, cal(m.timestamp));
      assert k in ks;
      var i :| 0 <= i < |ks| && ks[i] == k;
      assert gs[i] in gs;
      PrefixKeepsNewest(sorted, n, gs[i]);
    }
  }

  /** A prefix of a newest-first sequence is newest first. */
  lemma TakeKeepsNewestFirst(sorted: seq<PeriodGroup>, n: nat)
    requires NewestFirst(sorted)
    ensures NewestFirst(Take(sorted, n))
    ensures forall g :: g in Take(sorted, n) ==> g in sorted
  {
    var out := Take(sorted, n);
    forall i, j | 0 <= i < j < |out|
      ensures Newer(out[i].period, out[j].period)
    {
      assert out[i] == sorted[i] && out[j] == sorted[j];
    }
  }

  lemma GroupedIsNewest(recent: Log, p: Period, cal: int -> DateParts, n: nat)
    requires n > 0
    ensures NewestGroups(recent, p, cal, n, Grouped(recent, p, cal, n))
  {
    var gs := GroupsOf(recent, p, cal);
    var sorted := SortGroups(gs);
    TakeKeepsNewestFirst(sorted, n);
    GroupsExact(recent, p, cal, KeysIn(recent, p, cal), gs, Take(sorted, n));
    KeysCovered(recent, p, cal, sorted, n);
  }
}
