/** The dashboard remote application's page (apps/dashboard
    app.component.ts): the loading flags across its three independent
    requests, the metric cards, the chart registry and the uptime label. */
module DashboardApp {
  import opened Wrappers
  import Text

  const SecondsPerMinute: int := 60
  const SecondsPerHour: int := 3600
  const SecondsPerDay: int := 86400

  const NotAvailable: string := "N/A"
  const MetricsFailedMessage: string := "Failed to load dashboard metrics"

  /** `DashboardMetrics` as served; the average duration is a real number of
      minutes. */
  datatype Metrics = Metrics(totalUsers: int, activeUsers: int, totalSessions: int,
                             avgSessionDuration: real)

  datatype Card = Card(title: string, value: string, change: string, changeClass: string)

  /** The page state; each chart is represented by an identifier. */
  datatype State = State(isLoading: bool, error: string, metrics: Option<Metrics>,
                         health: Option<int>, cards: seq<Card>, charts: map<string, int>)

  /** JavaScript's `%` on numbers: the dividend minus the divisor times the
      quotient truncated toward zero, so the remainder takes the sign of
      the dividend. */
  function JsRem(a: real, b: real): (r: real)
    requires b > 0.0
    ensures exists t: int :: r == a - Multiple(b, t)
  {
    var q := a / b;
    var t := if q >= 0.0 then q.Floor else -((-q).Floor);
    assert a - b * (t as real) == a - Multiple(b, t);
    a - b * (t as real)
  }

  /** `t` times `b`, named so that a quantifier over `t` has a trigger. */
  function Multiple(b: real, t: int): real {
    b * (t as real)
  }

  /** For the two divisors the component uses, the remainder takes the
      dividend's sign and stays below the divisor in magnitude; for a
      non-negative dividend it is the floored remainder. */
  lemma JsRemBounds(a: real, b: real)
    requires b == 86400.0 || b == 3600.0
    ensures a >= 0.0 ==> 0.0 <= JsRem(a, b) < b && JsRem(a, b) == a - b * ((a / b).Floor as real)
    ensures a < 0.0 ==> -b < JsRem(a, b) <= 0.0 && JsRem(a, b) == -JsRem(-a, b)
  {
    if b == 86400.0 {
      JsRemNonNegative(a, 86400.0);
      JsRemNonNegative(-a, 86400.0);
    } else {
      JsRemNonNegative(a, 3600.0);
      JsRemNonNegative(-a, 3600.0);
    }
  }

  lemma JsRemNonNegative(a: real, b: real)
    requires b == 86400.0 || b == 3600.0
    ensures a >= 0.0 ==> 0.0 <= JsRem(a, b) < b && JsRem(a, b) == a - b * ((a / b).Floor as real)
    ensures -a / b == -(a / b)
  {
    if b == 86400.0 {
      var f := (a / 86400.0).Floor as real;
      assert f <= a / 86400.0 < f + 1.0;
    } else {
      var f := (a / 3600.0).Floor as real;
      assert f <= a / 3600.0 < f + 1.0;
    }
  }

  /** The three numbers `formatUptime` prints, or `None` where it prints
      `N/A`. The uptime is a JavaScript number: `None` stands for
      `undefined`, `null` and `NaN`, which are falsy like `0`. Division is
      `Math.floor` of a quotient. */
  function UptimeParts(seconds: Option<real>): (r: Option<(int, int, int)>)
    ensures r.None? <==> seconds.None? || seconds.value == 0.0
    ensures r.Some? ==>
              && r.value.0 == (seconds.value / 86400.0).Floor
              && r.value.1 == (JsRem(seconds.value, 86400.0) / 3600.0).Floor
              && r.value.2 == (JsRem(seconds.value, 3600.0) / 60.0).Floor
  {
    if seconds.None? || seconds.value == 0.0 then None
    else
      var s := seconds.value;
      Some(((s / 86400.0).Floor, (JsRem(s, 86400.0) / 3600.0).Floor,
            (JsRem(s, 3600.0) / 60.0).Floor))
  }

  /** `formatUptime`: `N/A` for a falsy count, otherwise `<d>d <h>h <m>m`. */
  function FormatUptime(seconds: Option<real>): (r: string)
    ensures UptimeParts(seconds).None? <==> r == NotAvailable
    ensures UptimeParts(seconds).Some? ==>
              var (d, h, m) := UptimeParts(seconds).value;
              r == Text.IntToString(d) + "d " + Text.IntToString(h) + "h "
                   + Text.IntToString(m) + "m"
  {
    match UptimeParts(seconds)
    case None => NotAvailable
    case Some((d, h, m)) =>
      var r := Text.IntToString(d) + "d " + Text.IntToString(h) + "h " + Text.IntToString(m) + "m";
      assert r[|r| - 1] == 'm';
      r
  }

  /** `(d, h, m)` is a days/hours/minutes reading of `s` seconds, rounded
      down to the whole minute. */
  predicate IsSpan(s: real, d: int, h: int, m: int) {
    && 0 <= h < 24 && 0 <= m < 60
    && ((d * SecondsPerDay + h * SecondsPerHour + m * SecondsPerMinute) as real) <= s
    && s < ((d * SecondsPerDay + h * SecondsPerHour + m * SecondsPerMinute + SecondsPerMinute) as real)
  }

  /** For a positive count, fractions of a second included, the printed
      numbers are that reading: hours below 24, minutes below 60, and the
      span covers `s` to the minute. */
  lemma UptimeIsSpan(s: real)
    requires s > 0.0
    ensures var (d, h, m) := UptimeParts(Some(s)).value;
            IsSpan(s, d, h, m) && d >= 0
  {
    var (d, h, m) := UptimeParts(Some(s)).value;
    JsRemBounds(s, 86400.0);
    JsRemBounds(s, 3600.0);
    var dayRest := JsRem(s, 86400.0);
    assert dayRest == s - 86400.0 * (d as real);
    assert 0.0 <= dayRest < 86400.0;
    assert 0 <= h < 24 && (h as real) * 3600.0 <= dayRest < (h as real) * 3600.0 + 3600.0;
    var hourRest := JsRem(s, 3600.0);
    HoursOfDay(s, d, h);
    assert hourRest == dayRest - 3600.0 * (h as real);
    assert 0 <= m < 60 && (m as real) * 60.0 <= hourRest < (m as real) * 60.0 + 60.0;
  }

  /** The whole hours in `s` are the whole days' hours plus those of the
      rest of the day. */
  lemma HoursOfDay(s: real, d: int, h: int)
    requires s > 0.0 && d == (s / 86400.0).Floor
    requires h == ((s - 86400.0 * (d as real)) / 3600.0).Floor
    ensures (s / 3600.0).Floor == 24 * d + h
  {
    var x := s / 3600.0;
    assert x == 24.0 * (d as real) + (s - 86400.0 * (d as real)) / 3600.0;
  }

  /** There is only one such reading, so the printed numbers are fully
      determined by `IsSpan`. */
  lemma SpanUnique(s: real, d: int, h: int, m: int, d': int, h': int, m': int)
    requires IsSpan(s, d, h, m) && IsSpan(s, d', h', m')
    ensures d == d' && h == h' && m == m'
  {
    var t := d * 1440 + h * 60 + m;
    var t' := d' * 1440 + h' * 60 + m';
    assert (t * 60) as real <= s < (t * 60 + 60) as real;
    assert (t' * 60) as real <= s < (t' * 60 + 60) as real;
    assert t == t';
    assert d * 1440 <= t < d * 1440 + 1440;
    assert d' * 1440 <= t' < d' * 1440 + 1440;
    assert d == d';
  }

  /** Fractions of a second print as zero minutes, and a missing count as
      `N/A`. */
  lemma UptimeExamples()
    ensures FormatUptime(Some(0.5)) == "0d 0h 0m"
    ensures FormatUptime(None) == NotAvailable
  {
    assert UptimeParts(Some(0.5)) == Some((0, 0, 0));
  }

  // ---------------------------------------------------------------------
  // Metric cards
  // ---------------------------------------------------------------------

  const CardTitles: seq<string> :=
    ["Total Users", "Active Users", "Total Sessions", "Avg Session Duration"]
  const CardChanges: seq<string> :=
    ["+12% from last month", "+8% from last month", "+15% from last month", "-2% from last month"]
  const CardClasses: seq<string> := ["positive", "positive", "positive", "negative"]

  /** JavaScript's `Math.round`: halves go up. */
  function Round(x: real): (r: int)
    ensures r as real - 0.5 <= x < r as real + 0.5
  {
    (x + 0.5).Floor
  }

  /** `updateMetricsCards`: without metrics the cards stay as they were;
      otherwise exactly four cards in a fixed order, the counts rendered by
      `grouped` (the `toLocaleString` formatting, a parameter here) and the
      average rounded and suffixed with ` min`. */
  function UpdateMetricsCards(cards: seq<Card>, metrics: Option<Metrics>, grouped: int -> string)
    : (r: seq<Card>)
    ensures metrics.None? ==> r == cards
    ensures metrics.Some? ==>
              && |r| == 4
              && (forall i :: 0 <= i < 4 ==>
                    r[i].title == CardTitles[i] && r[i].change == CardChanges[i]
                    && r[i].changeClass == CardClasses[i])
              && r[0].value == grouped(metrics.value.totalUsers)
              && r[1].value == grouped(metrics.value.activeUsers)
              && r[2].value == grouped(metrics.value.totalSessions)
              && r[3].value == Text.IntToString(Round(metrics.value.avgSessionDuration)) + " min"
  {
    match metrics
    case None => cards
    case Some(m) =>
      [Card(CardTitles[0], grouped(m.totalUsers), CardChanges[0], CardClasses[0]),
       Card(CardTitles[1], grouped(m.activeUsers), CardChanges[1], CardClasses[1]),
       Card(CardTitles[2], grouped(m.totalSessions), CardChanges[2], CardClasses[2]),
       Card(CardTitles[3], Text.IntToString(Round(m.avgSessionDuration)) + " min",
            CardChanges[3], CardClasses[3])]
  }

  /** Only the last card reports a fall, and the titles are distinct. */
  lemma CardsShape(cards: seq<Card>, m: Metrics, grouped: int -> string)
    ensures var r := UpdateMetricsCards(cards, Some(m), grouped);
            && (forall i :: 0 <= i < 4 ==> (r[i].changeClass == "negative" <==> i == 3))
            && (forall i, j :: 0 <= i < j < 4 ==> r[i].title != r[j].title)
  {
  }

  // ---------------------------------------------------------------------
  // Charts and loading
  // ---------------------------------------------------------------------

  /** `destroyCharts`: every registered chart is destroyed and the registry
      is emptied. */
  function DestroyCharts(charts: map<string, int>): (r: (map<string, int>, set<int>))
    ensures r.0 == map[]
    ensures r.1 == charts.Values
  {
    (map[], charts.Values)
  }

  /** `loadDashboardData` as issued: loading on and the error cleared; the
      three replies arrive later, in any order. */
  function StartLoad(s: State): (r: State)
    ensures r.isLoading && r.error == ""
    ensures r.metrics == s.metrics && r.cards == s.cards && r.health == s.health
  {
    s.(isLoading := true, error := "")
  }

  /** The metrics reply: success stores the metrics and rebuilds the cards
      but leaves loading on; failure shows the fixed error and ends loading. */
  function OnMetrics(s: State, reply: Option<Metrics>, grouped: int -> string): (r: State)
    ensures reply.Some? ==> r.metrics == reply && r.isLoading == s.isLoading
                            && r.cards == UpdateMetricsCards(s.cards, reply, grouped)
                            && r.error == s.error
    ensures reply.None? ==> r == s.(error := MetricsFailedMessage, isLoading := false)
  {
    match reply
    case Some(m) => s.(metrics := reply, cards := UpdateMetricsCards(s.cards, reply, grouped))
    case None => s.(error := MetricsFailedMessage, isLoading := false)
  }

  /** The health reply ends loading whatever its outcome. The reply is
      reduced to its uptime. */
  function OnHealth(s: State, reply: Option<int>): (r: State)
    ensures !r.isLoading
    ensures reply.Some? ==> r.health == reply
    ensures reply.None? ==> r.health == s.health
    ensures r.error == s.error && r.metrics == s.metrics && r.cards == s.cards
  {
    match reply
    case Some(uptime) => s.(health := Some(uptime), isLoading := false)
    case None => s.(isLoading := false)
  }

  /** Loading ends once the health reply is in, in either arrival order,
      but a successful metrics reply alone does not end it. */
  lemma LoadingEndsWithHealth(s: State, m: Option<Metrics>, h: Option<int>, grouped: int -> string)
    ensures !OnHealth(OnMetrics(StartLoad(s), m, grouped), h).isLoading
    ensures !OnMetrics(OnHealth(StartLoad(s), h), m, grouped).isLoading
    ensures m.Some? ==> OnMetrics(StartLoad(s), m, grouped).isLoading
    ensures m.None? ==> OnHealth(OnMetrics(StartLoad(s), m, grouped), h).error == MetricsFailedMessage
  {
  }
}
