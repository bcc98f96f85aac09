/** The dashboard endpoints (routes/dashboard.py): the summary and its
    health classification, the filtered metric list, metric create, get,
    update and delete, and the sample-data seed. Timestamps are seconds;
    the clock and the random sample values are parameters. */
module MetricsApi {
  import opened Wrappers
  import Pagination
  import opened Store

  const SecondsPerDay: int := 86400
  const SummaryWindowDays: int := 30
  const RecentCount: nat := 10

  const DefaultPage: int := 1
  const DefaultPerPage: int := 20
  const MaxPerPage: int := 100

  const MetricNotFound: string := "Metric not found"
  const MetricDeleted: string := "Metric deleted successfully"
  const InvalidQuery: string := "Invalid query parameters"

  const Revenue: string := "revenue"
  const Performance: string := "performance"

  // ---------------------------------------------------------------------
  // Ordering by recording time, newest first
  // ---------------------------------------------------------------------

  predicate NewestFirst(s: seq<Metric>) {
    forall i, j :: 0 <= i < j < |s| ==> s[i].recordedAt >= s[j].recordedAt
  }

  function Insert(m: Metric, s: seq<Metric>): (r: seq<Metric>)
    requires NewestFirst(s)
    ensures NewestFirst(r)
    ensures multiset(r) == multiset(s) + multiset{m}
    ensures |r| == |s| + 1
    ensures r[0] == m || (|s| > 0 && r[0] == s[0])
  {
    if |s| == 0 then [m]
    else if m.recordedAt >= s[0].recordedAt then [m] + s
    else
      var rest := Insert(m, s[1..]);
      assert s == [s[0]] + s[1..];
      [s[0]] + rest
  }

  /** The rows in `order_by(desc(recorded_at))` order. The database
      leaves ties in no particular order; this sort keeps them in
      insertion order. */
  function NewestFirstOrder(s: seq<Metric>): (r: seq<Metric>)
    ensures NewestFirst(r)
    ensures multiset(r) == multiset(s)
    ensures |r| == |s|
  {
    if |s| == 0 then []
    else
      assert s == [s[0]] + s[1..];
      Insert(s[0], NewestFirstOrder(s[1..]))
  }

  // ---------------------------------------------------------------------
  // Summary
  // ---------------------------------------------------------------------

  datatype Health = Healthy | Warning | Critical

  /** The classification as written: `elif score < 50` follows
      `if score < 70`, so it is never reached. */
  function SystemHealthAsWritten(score: real): (h: Health)
    ensures h == Warning <==> score < 70.0
  {
    if score < 70.0 then Warning
    else if score < 50.0 then Critical
    else Healthy
  }

  /** The as-written classification never answers critical, even for a
      score of 0. */
  lemma CriticalUnreachable(score: real)
    ensures SystemHealthAsWritten(score) != Critical
    ensures SystemHealthAsWritten(0.0) == Warning
  {
  }

  /** The classification with the thresholds tested from the lower one
      up: critical below 50, warning below 70, healthy otherwise. */
  function SystemHealth(score: real): (h: Health)
    ensures h == Critical <==> score < 50.0
    ensures h == Warning <==> 50.0 <= score < 70.0
    ensures h == Healthy <==> score >= 70.0
  {
    if score < 50.0 then Critical
    else if score < 70.0 then Warning
    else Healthy
  }

  /** The corrected classification agrees with the written one except on
      the scores the written one should have called critical, and it is
      monotone: a higher score is never in a worse state. */
  lemma HealthCorrection(score: real, higher: real)
    requires score <= higher
    ensures score >= 50.0 <==> SystemHealth(score) == SystemHealthAsWritten(score)
    ensures Rank(SystemHealth(score)) <= Rank(SystemHealth(higher))
  {
  }

  function Rank(h: Health): nat {
    match h
    case Critical => 0
    case Warning => 1
    case Healthy => 2
  }

  function CountActive(users: seq<User>): (n: nat)
    ensures n <= |users|
    ensures n == |users| <==> forall i :: 0 <= i < |users| ==> users[i].isActive
  {
    if |users| == 0 then 0
    else (if users[0].isActive then 1 else 0) + CountActive(users[1..])
  }

  /** The metrics of one type recorded at or after `since`. */
  function Recent(metrics: seq<Metric>, metricType: string, since: int): (r: seq<Metric>)
    ensures |r| <= |metrics|
    ensures forall m :: m in r <==> m in metrics && m.metricType == metricType && m.recordedAt >= since
  {
    if |metrics| == 0 then []
    else
      var m := metrics[0];
      (if m.metricType == metricType && m.recordedAt >= since then [m] else [])
        + Recent(metrics[1..], metricType, since)
  }

  function Sum(metrics: seq<Metric>): real {
    if |metrics| == 0 then 0.0 else metrics[0].value + Sum(metrics[1..])
  }

  /** `avg(value)`, with SQL's NULL for no rows turned into 0.0 by the
      `or 0.0`. */
  function Average(metrics: seq<Metric>): (a: real)
    ensures |metrics| == 0 ==> a == 0.0
  {
    if |metrics| == 0 then 0.0 else Sum(metrics) / (|metrics| as real)
  }

  /** The sum of values that all lie in `[lo, hi]` lies between `n * lo`
      and `n * hi`. */
  lemma {:induction false} SumBounds(metrics: seq<Metric>, lo: real, hi: real)
    requires forall i :: 0 <= i < |metrics| ==> lo <= metrics[i].value <= hi
    ensures (|metrics| as real) * lo <= Sum(metrics) <= (|metrics| as real) * hi
  {
    if |metrics| > 0 {
      SumBounds(metrics[1..], lo, hi);
    }
  }

  /** The average of values in `[lo, hi]` is in `[lo, hi]`. */
  lemma AverageBounds(metrics: seq<Metric>, lo: real, hi: real)
    requires |metrics| > 0
    requires forall i :: 0 <= i < |metrics| ==> lo <= metrics[i].value <= hi
    ensures lo <= Average(metrics) <= hi
  {
    SumBounds(metrics, lo, hi);
    var n := |metrics| as real;
    assert Sum(metrics) / n >= lo by {
      assert Sum(metrics) >= n * lo;
    }
    assert Sum(metrics) / n <= hi by {
      assert Sum(metrics) <= n * hi;
    }
  }

  /** A prefix of the newest-first order is newest first and holds only
      stored metrics. */
  lemma NewestPrefix(metrics: seq<Metric>, n: nat)
    ensures var recent := Pagination.Limit(NewestFirstOrder(metrics), n);
            && NewestFirst(recent)
            && forall m :: m in recent ==> m in metrics
  {
    var ordered := NewestFirstOrder(metrics);
    var recent := Pagination.Limit(ordered, n);
    assert forall m :: m in recent ==> m in multiset(ordered);
  }

  datatype Summary = Summary(totalUsers: nat, activeUsers: nat, totalRevenue: real,
                             performanceScore: real, systemHealth: Health,
                             recentMetrics: seq<Metric>)

  /** `get_dashboard_summary` at time `now`, as written: the health is the
      as-written classification of the unrounded score, which is reported
      unrounded too. */
  function GetSummary(db: Db, now: int): (r: Summary)
    ensures r.totalUsers == |db.users| && r.activeUsers == CountActive(db.users)
    ensures r.totalRevenue == Sum(Recent(db.metrics, Revenue, now - SummaryWindowDays * SecondsPerDay))
    ensures r.performanceScore ==
              Average(Recent(db.metrics, Performance, now - SummaryWindowDays * SecondsPerDay))
    ensures r.systemHealth == SystemHealthAsWritten(r.performanceScore)
    ensures |r.recentMetrics| == if |db.metrics| < 10 then |db.metrics| else 10
    ensures r.recentMetrics == NewestFirstOrder(db.metrics)[..|r.recentMetrics|]
    ensures NewestFirst(r.recentMetrics)
    ensures forall m :: m in r.recentMetrics ==> m in db.metrics
  {
    var since := now - SummaryWindowDays * SecondsPerDay;
    var score := Average(Recent(db.metrics, Performance, since));
    var recent := Pagination.Limit(NewestFirstOrder(db.metrics), RecentCount);
    NewestPrefix(db.metrics, RecentCount);
    Summary(|db.users|, CountActive(db.users), Sum(Recent(db.metrics, Revenue, since)),
            score, SystemHealthAsWritten(score), recent)
  }

  /** The summary with the corrected health classification: every other
      field is the endpoint's, and a score below 50 is critical. */
  function GetSummaryCorrected(db: Db, now: int): (r: Summary)
    ensures r.(systemHealth := Healthy) == GetSummary(db, now).(systemHealth := Healthy)
    ensures r.systemHealth == Critical <==> r.performanceScore < 50.0
    ensures r.systemHealth == Healthy <==> r.performanceScore >= 70.0
    ensures r.performanceScore >= 50.0 ==> r.systemHealth == GetSummary(db, now).systemHealth
  {
    var s := GetSummary(db, now);
    HealthCorrection(s.performanceScore, s.performanceScore);
    s.(systemHealth := SystemHealth(s.performanceScore))
  }

  // ---------------------------------------------------------------------
  // Listing
  // ---------------------------------------------------------------------

  datatype MetricQuery = MetricQuery(page: int, perPage: int,
                                     typeFilter: Option<string>, sourceFilter: Option<string>,
                                     dateFrom: Option<int>, dateTo: Option<int>)

  /** The filters, conjunctively. An absent or empty type or source filter
      restricts nothing; a given date bound always applies. */
  predicate Selected(q: MetricQuery, m: Metric) {
    && (q.typeFilter.Some? && q.typeFilter.value != "" ==> m.metricType == q.typeFilter.value)
    && (q.sourceFilter.Some? && q.sourceFilter.value != "" ==> m.source == q.sourceFilter)
    && (q.dateFrom.Some? ==> m.recordedAt >= q.dateFrom.value)
    && (q.dateTo.Some? ==> m.recordedAt <= q.dateTo.value)
  }

  function Filter(q: MetricQuery, metrics: seq<Metric>): (r: seq<Metric>)
    ensures |r| <= |metrics|
    ensures forall m :: m in r <==> m in metrics && Selected(q, m)
  {
    if |metrics| == 0 then []
    else (if Selected(q, metrics[0]) then [metrics[0]] else []) + Filter(q, metrics[1..])
  }

  predicate QueryValid(q: MetricQuery) {
    q.page >= 1 && 1 <= q.perPage <= MaxPerPage
  }

  /** `get_metrics`: 422 outside the query rules; otherwise the page of
      selected metrics, newest first. */
  function ListMetrics(db: Db, q: MetricQuery): (r: Result<Pagination.Page<Metric>, ApiError>)
    ensures r.Err? <==> !QueryValid(q)
    ensures r.Err? ==> r.error.status == Unprocessable
    ensures r.Ok? ==>
              && r.value.total == |Filter(q, db.metrics)|
              && |r.value.items| <= q.perPage
              && r.value.items == Pagination.Window(NewestFirstOrder(Filter(q, db.metrics)), q.page, q.perPage)
              && NewestFirst(r.value.items)
              && (forall m :: m in r.value.items ==> m in db.metrics && Selected(q, m))
              && (r.value.hasPrev <==> q.page > 1)
              && (r.value.hasNext <==> q.page * q.perPage < r.value.total)
  {
    if !QueryValid(q) then Err(ApiError(Unprocessable, InvalidQuery))
    else
      var selected := Filter(q, db.metrics);
      OrderedPage(selected, q.page, q.perPage);
      Ok(Pagination.Paginate(NewestFirstOrder(selected), q.page, q.perPage))
  }

  /** A page of the newest-first order of a list: newest first, drawn
      from the list, and the `OFFSET`/`LIMIT` window of that order. */
  lemma OrderedPage(metrics: seq<Metric>, page: nat, perPage: nat)
    requires page >= 1 && perPage >= 1
    ensures var ordered := NewestFirstOrder(metrics);
            var p := Pagination.Paginate(ordered, page, perPage);
            && p.total == |metrics|
            && NewestFirst(p.items)
            && (forall m :: m in p.items ==> m in metrics)
            && p.items == Pagination.Window(ordered, page, perPage)
  {
    var ordered := NewestFirstOrder(metrics);
    PageOfOrdered(ordered, page, perPage);
    assert forall m :: m in ordered ==> m in multiset(metrics);
  }

  /** A page of a newest-first list is newest first and holds entries of
      the list. */
  lemma PageOfOrdered(s: seq<Metric>, page: nat, perPage: nat)
    requires NewestFirst(s) && page >= 1 && perPage >= 1
    ensures NewestFirst(Pagination.Paginate(s, page, perPage).items)
    ensures forall m :: m in Pagination.Paginate(s, page, perPage).items ==> m in s
  {
    var offset := (page - 1) * perPage;
    if offset <= |s| {
      assert page * perPage == offset + perPage;
      var b := Pagination.Min(page * perPage, |s|);
      SliceNewestFirst(s, offset, b);
      assert forall m :: m in s[offset..b] ==> m in s;
    }
  }

  /** A run of consecutive entries of a newest-first list is newest first. */
  lemma SliceNewestFirst(s: seq<Metric>, a: nat, b: nat)
    requires NewestFirst(s) && a <= b <= |s|
    ensures NewestFirst(s[a..b])
  {
    var t := s[a..b];
    forall i, j | 0 <= i < j < |t|
      ensures t[i].recordedAt >= t[j].recordedAt
    {
      assert t[i] == s[a + i] && t[j] == s[a + j];
    }
  }

  // ---------------------------------------------------------------------
  // Single metrics
  // ---------------------------------------------------------------------

  /** The body of a create request after validation. */
  datatype NewMetric = NewMetric(name: string, metricType: string, value: real,
                                 unit: Option<string>, description: Option<string>,
                                 source: Option<string>, tags: Option<string>,
                                 recordedAt: Option<int>)

  /** `create_metric`: the next id, the time given or `now`, and the
      caller as creator. */
  function CreateMetric(db: Db, data: NewMetric, now: int, callerId: int): (r: (Db, Metric))
    ensures r.1.id == db.nextMetricId && r.1.createdBy == Some(callerId)
    ensures r.1.recordedAt == data.recordedAt.GetOr(now)
    ensures r.1.name == data.name && r.1.metricType == data.metricType && r.1.value == data.value
    ensures r.1.unit == data.unit && r.1.description == data.description
    ensures r.1.source == data.source && r.1.tags == data.tags
    ensures r.0 == db.(metrics := db.metrics + [r.1], nextMetricId := db.nextMetricId + 1)
  {
    var m := Metric(db.nextMetricId, data.name, data.metricType, data.value, data.unit,
                    data.description, data.source, data.tags, data.recordedAt.GetOr(now),
                    Some(callerId));
    (db.(metrics := db.metrics + [m], nextMetricId := db.nextMetricId + 1), m)
  }

  /** The new metric is found under its id, and the store stays valid. */
  lemma CreateMetricValid(db: Db, data: NewMetric, now: int, callerId: int)
    requires Valid(db)
    ensures var (db', m) := CreateMetric(db, data, now, callerId);
            Valid(db') && MetricWithId(db'.metrics, m.id) == Some(|db.metrics|)
  {
    var (db', m) := CreateMetric(db, data, now, callerId);
    assert db'.metrics[|db.metrics|] == m;
    assert forall i :: 0 <= i < |db.metrics| ==> db'.metrics[i] == db.metrics[i];
  }

  /** `get_metric`. */
  function GetMetric(db: Db, id: int): (r: Result<Metric, ApiError>)
    ensures r.Err? <==> MetricWithId(db.metrics, id).None?
    ensures r.Err? ==> r.error == ApiError(NotFound, MetricNotFound)
    ensures r.Ok? ==> r.value in db.metrics && r.value.id == id
  {
    match MetricWithId(db.metrics, id)
    case None => Err(ApiError(NotFound, MetricNotFound))
    case Some(k) => Ok(db.metrics[k])
  }

  /** The fields an update request sets. */
  datatype MetricPatch = MetricPatch(name: Option<string>, metricType: Option<string>,
                                     value: Option<real>, unit: Option<string>,
                                     description: Option<string>, source: Option<string>,
                                     tags: Option<string>)

  function ApplyPatch(m: Metric, p: MetricPatch): (r: Metric)
    ensures r.id == m.id && r.recordedAt == m.recordedAt && r.createdBy == m.createdBy
    ensures r.name == p.name.GetOr(m.name) && r.metricType == p.metricType.GetOr(m.metricType)
    ensures r.value == p.value.GetOr(m.value)
    ensures r.unit == (if p.unit.Some? then p.unit else m.unit)
    ensures r.description == (if p.description.Some? then p.description else m.description)
    ensures r.source == (if p.source.Some? then p.source else m.source)
    ensures r.tags == (if p.tags.Some? then p.tags else m.tags)
    ensures p == MetricPatch(None, None, None, None, None, None, None) ==> r == m
  {
    m.(name := p.name.GetOr(m.name), metricType := p.metricType.GetOr(m.metricType),
       value := p.value.GetOr(m.value),
       unit := if p.unit.Some? then p.unit else m.unit,
       description := if p.description.Some? then p.description else m.description,
       source := if p.source.Some? then p.source else m.source,
       tags := if p.tags.Some? then p.tags else m.tags)
  }

  /** `update_metric`: 404 for a missing id; otherwise the set fields are
      written and nothing else changes. */
  function UpdateMetric(db: Db, id: int, p: MetricPatch): (r: Result<(Db, Metric), ApiError>)
    ensures r.Err? <==> MetricWithId(db.metrics, id).None?
    ensures r.Err? ==> r.error == ApiError(NotFound, MetricNotFound)
    ensures r.Ok? ==>
              var k := MetricWithId(db.metrics, id).value;
              && r.value.1 == ApplyPatch(db.metrics[k], p)
              && r.value.0 == db.(metrics := db.metrics[k := r.value.1])
  {
    match MetricWithId(db.metrics, id)
    case None => Err(ApiError(NotFound, MetricNotFound))
    case Some(k) =>
      var m := ApplyPatch(db.metrics[k], p);
      Ok((db.(metrics := db.metrics[k := m]), m))
  }

  /** Updating keeps the store valid, and an empty update changes
      nothing. */
  lemma UpdateMetricValid(db: Db, id: int, p: MetricPatch)
    requires Valid(db)
    requires UpdateMetric(db, id, p).Ok?
    ensures Valid(UpdateMetric(db, id, p).value.0)
    ensures p == MetricPatch(None, None, None, None, None, None, None) ==>
              UpdateMetric(db, id, p).value.0 == db
  {
    var k := MetricWithId(db.metrics, id).value;
    var metrics' := db.metrics[k := ApplyPatch(db.metrics[k], p)];
    assert forall i :: 0 <= i < |metrics'| ==> metrics'[i].id == db.metrics[i].id;
  }

  /** `delete_metric`: 404 for a missing id; otherwise that metric alone is
      removed. */
  function DeleteMetric(db: Db, id: int): (r: Result<Db, ApiError>)
    ensures r.Err? <==> MetricWithId(db.metrics, id).None?
    ensures r.Err? ==> r.error == ApiError(NotFound, MetricNotFound)
    ensures r.Ok? ==>
              && |r.value.metrics| == |db.metrics| - 1
              && r.value.users == db.users && r.value.roles == db.roles
              && (forall m :: m in r.value.metrics ==> m in db.metrics)
  {
    match MetricWithId(db.metrics, id)
    case None => Err(ApiError(NotFound, MetricNotFound))
    case Some(k) =>
      var metrics' := RemoveAt(db.metrics, k);
      assert forall i :: 0 <= i < |metrics'| ==> metrics'[i] in db.metrics by {
        forall i | 0 <= i < |metrics'|
          ensures metrics'[i] in db.metrics
        {
          if i < k { assert metrics'[i] == db.metrics[i]; }
          else { assert metrics'[i] == db.metrics[i + 1]; }
        }
      }
      Ok(db.(metrics := metrics'))
  }

  /** In a valid store, a delete leaves no metric with that id and keeps
      the store valid. */
  lemma DeleteMetricValid(db: Db, id: int)
    requires Valid(db)
    requires DeleteMetric(db, id).Ok?
    ensures Valid(DeleteMetric(db, id).value)
    ensures MetricWithId(DeleteMetric(db, id).value.metrics, id).None?
  {
    var k := MetricWithId(db.metrics, id).value;
    RemoveMetricValid(db, k);
    var metrics' := RemoveAt(db.metrics, k);
    forall j | 0 <= j < |metrics'|
      ensures metrics'[j].id != id
    {
      var j0 := if j < k then j else j + 1;
      assert metrics'[j] == db.metrics[j0];
    }
  }

  // ---------------------------------------------------------------------
  // Sample data
  // ---------------------------------------------------------------------

  const SeedDays: nat := 30
  const AlreadySeeded: string := "Data already exists"
  const Seeded: string := "Sample data created successfully"

  /** The four metric types the sample data uses. */
  predicate IsSampleType(metricType: string) {
    || metricType == "performance" || metricType == "users"
    || metricType == "revenue" || metricType == "system"
  }

  /** The euro sign as the source file spells it: its UTF-8 bytes read as
      Windows-1252. */
  const EuroUnit: string := "\U{E2}\U{201A}\U{AC}"

  /** The four sample metrics of day `i`, the `j`-th with id `firstId + 4i + j`.
      `draw(n)` is the random value of the `n`-th sample. */
  function DayMetrics(firstId: nat, base: int, i: nat, callerId: int, draw: nat -> real): (r: seq<Metric>)
    ensures |r| == 4
    ensures forall j :: 0 <= j < |r| ==> r[j].id == firstId + 4 * i + j
    ensures forall j :: 0 <= j < |r| ==> r[j].recordedAt == base + i * SecondsPerDay
    ensures r[0].metricType == "performance" && r[1].metricType == "users"
    ensures r[2].metricType == "revenue" && r[3].metricType == "system"
  {
    var at := base + i * SecondsPerDay;
    var n := 4 * i;
    [Metric(firstId + n, "Response Time", "performance", draw(n), Some("ms"),
            Some("Average API response time"), Some("api-gateway"), None, at, Some(callerId)),
     Metric(firstId + n + 1, "Active Users", "users", draw(n + 1), Some("users"),
            Some("Daily active users"), Some("user-service"), None, at, Some(callerId)),
     Metric(firstId + n + 2, "Daily Revenue", "revenue", draw(n + 2), Some(EuroUnit),
            Some("Daily revenue"), Some("billing-service"), None, at, Some(callerId)),
     Metric(firstId + n + 3, "CPU Usage", "system", draw(n + 3), Some("%"),
            Some("Average CPU usage"), Some("monitoring"), None, at, Some(callerId))]
  }

  /** The samples of days `0 .. days - 1`, in order. */
  function Samples(firstId: nat, base: int, days: nat, callerId: int, draw: nat -> real): (r: seq<Metric>)
    ensures |r| == 4 * days
    ensures forall k :: 0 <= k < |r| ==> r[k].id == firstId + k
  {
    if days == 0 then []
    else
      var earlier := Samples(firstId, base, days - 1, callerId, draw);
      var today := DayMetrics(firstId, base, days - 1, callerId, draw);
      assert forall k :: |earlier| <= k < |earlier| + |today| ==>
               (earlier + today)[k] == today[k - |earlier|];
      earlier + today
  }

  function CountType(s: seq<Metric>, metricType: string): (n: nat)
    ensures n <= |s|
  {
    if |s| == 0 then 0
    else (if s[0].metricType == metricType then 1 else 0) + CountType(s[1..], metricType)
  }

  lemma {:induction false} CountTypeAppend(a: seq<Metric>, b: seq<Metric>, metricType: string)
    ensures CountType(a + b, metricType) == CountType(a, metricType) + CountType(b, metricType)
    decreases |a|
  {
    if |a| > 0 {
      assert (a + b)[1..] == a[1..] + b;
      CountTypeAppend(a[1..], b, metricType);
    } else {
      assert a + b == b;
    }
  }

  /** `s` is `days` blocks of four metrics, each block holding one
      performance, users, revenue and system metric in that order. */
  predicate DayBlocks(s: seq<Metric>, days: nat)
    decreases days
  {
    if days == 0 then s == []
    else
      && |s| >= 4
      && var today := s[|s| - 4..];
      && today[0].metricType == "performance" && today[1].metricType == "users"
      && today[2].metricType == "revenue" && today[3].metricType == "system"
      && DayBlocks(s[..|s| - 4], days - 1)
  }

  /** Each day adds one metric of each of the four types, so `days` days
      hold `days` of each. */
  lemma SamplesPerType(firstId: nat, base: int, days: nat, callerId: int,
                       draw: nat -> real, metricType: string)
    requires IsSampleType(metricType)
    ensures CountType(Samples(firstId, base, days, callerId, draw), metricType) == days
  {
    SamplesAreDayBlocks(firstId, base, days, callerId, draw);
    CountOfDayBlocks(Samples(firstId, base, days, callerId, draw), days, metricType);
  }

  /** The samples of `days` days are `days` typed blocks. */
  lemma {:induction false} SamplesAreDayBlocks(firstId: nat, base: int, days: nat, callerId: int,
                                               draw: nat -> real)
    ensures DayBlocks(Samples(firstId, base, days, callerId, draw), days)
  {
    if days > 0 {
      var d := days - 1;
      SamplesAreDayBlocks(firstId, base, d, callerId, draw);
      SamplesStep(firstId, base, days, callerId, draw);
      DayBlocksAppend(Samples(firstId, base, d, callerId, draw),
                      DayMetrics(firstId, base, d, callerId, draw), d);
    } else {
      assert Samples(firstId, base, days, callerId, draw) == [];
    }
  }

  /** Appending one typed block to `days` blocks gives `days + 1` blocks. */
  lemma DayBlocksAppend(earlier: seq<Metric>, today: seq<Metric>, days: nat)
    requires DayBlocks(earlier, days) && |today| == 4
    requires today[0].metricType == "performance" && today[1].metricType == "users"
    requires today[2].metricType == "revenue" && today[3].metricType == "system"
    ensures DayBlocks(earlier + today, days + 1)
  {
    var s := earlier + today;
    assert s[|s| - 4..] == today;
    assert s[..|s| - 4] == earlier;
  }

  /** `days` typed blocks hold `days` metrics of each sample type. */
  lemma {:induction false} CountOfDayBlocks(s: seq<Metric>, days: nat, metricType: string)
    requires DayBlocks(s, days) && IsSampleType(metricType)
    ensures CountType(s, metricType) == days
  {
    if days > 0 {
      var earlier, today := s[..|s| - 4], s[|s| - 4..];
      assert s == earlier + today;
      CountOfDayBlocks(earlier, days - 1, metricType);
      DayHasOneOfEach(today, metricType);
      CountTypeAppend(earlier, today, metricType);
    }
  }

  /** One more day appends that day's samples. */
  lemma SamplesStep(firstId: nat, base: int, days: nat, callerId: int, draw: nat -> real)
    requires days > 0
    ensures Samples(firstId, base, days, callerId, draw)
            == Samples(firstId, base, days - 1, callerId, draw)
               + DayMetrics(firstId, base, days - 1, callerId, draw)
  {
  }

  /** A day's four samples hold exactly one metric of each sample type. */
  lemma DayHasOneOfEach(today: seq<Metric>, metricType: string)
    requires |today| == 4
    requires today[0].metricType == "performance" && today[1].metricType == "users"
    requires today[2].metricType == "revenue" && today[3].metricType == "system"
    requires IsSampleType(metricType)
    ensures CountType(today, metricType) == 1
  {
    assert today[3..][1..] == [];
    assert today[2..][1..] == today[3..];
    assert today[1..][1..] == today[2..];
    assert CountType(today[3..], metricType) == (if today[3].metricType == metricType then 1 else 0);
    assert CountType(today[2..], metricType)
        == (if today[2].metricType == metricType then 1 else 0) + CountType(today[3..], metricType);
    assert CountType(today[1..], metricType)
        == (if today[1].metricType == metricType then 1 else 0) + CountType(today[2..], metricType);
  }

  /** `seed_dashboard_data` at time `now`: nothing when any metric exists,
      otherwise thirty days of the four sample metrics starting thirty days
      ago. The reply is the message and the count. */
  function Seed(db: Db, now: int, callerId: int, draw: nat -> real): (r: (Db, (string, nat)))
    ensures |db.metrics| > 0 ==> r == (db, (AlreadySeeded, |db.metrics|))
    ensures |db.metrics| == 0 ==>
              && r.1 == (Seeded, 120)
              && r.0.metrics == Samples(db.nextMetricId, now - SeedDays * SecondsPerDay,
                                        SeedDays, callerId, draw)
              && r.0.nextMetricId == db.nextMetricId + 120
              && r.0.users == db.users && r.0.roles == db.roles
  {
    if |db.metrics| > 0 then (db, (AlreadySeeded, |db.metrics|))
    else
      var samples := Samples(db.nextMetricId, now - SeedDays * SecondsPerDay, SeedDays, callerId, draw);
      (db.(metrics := samples, nextMetricId := db.nextMetricId + |samples|), (Seeded, |samples|))
  }

  /** Seeding an empty store gives 120 metrics, 30 of each sample type,
      keeps the store valid, and a second seed (at any time, with any
      values) changes nothing. */
  lemma SeedOnce(db: Db, now: int, callerId: int, draw: nat -> real,
                 later: int, draw2: nat -> real, metricType: string)
    requires Valid(db) && |db.metrics| == 0
    requires IsSampleType(metricType)
    ensures var db' := Seed(db, now, callerId, draw).0;
            && |db'.metrics| == 120
            && CountType(db'.metrics, metricType) == 30
            && Valid(db')
            && Seed(db', later, callerId, draw2) == (db', (AlreadySeeded, 120))
  {
    SamplesPerType(db.nextMetricId, now - SeedDays * SecondsPerDay, SeedDays, callerId, draw, metricType);
  }
}
