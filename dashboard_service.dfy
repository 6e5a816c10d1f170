/**
 * Dashboard statistics: today's detections counted in analysis_history, and the
 * age and gender shares of the latest year of two public statistics feeds. The
 * feeds' HTTP calls are `Remote` inputs; the percentages, which the service
 * returns as doubles, are modelled as exact integers in tenths of a percent.
 */
module DashboardService {
  import opened Wrappers
  import opened Domain
  import opened AnalysisHistoryRepository

  /** A Java `int` / `Integer` value. */
  newtype Int32 = x: int | -0x8000_0000 <= x < 0x8000_0000

  /** The smallest risk score that counts as a detection. */
  const DetectionThreshold := 50
  /** Timestamps are local seconds since the epoch; a day is this many of them. */
  const SecondsPerDay := 86400

  /** The error statuses of the dashboard. */
  datatype DashboardError =
    | AgeDataNotFound
    | AgeLatestDataNotFound
    | GenderDataNotFound
    | GenderLatestDataNotFound
    | ExternalApiError

  // ---------------------------------------------------------------------------
  // Arithmetic
  // ---------------------------------------------------------------------------

  /** Java `int` addition: the exact sum brought back into 32 bits by wrapping around. */
  function Wrap32(x: int): (r: Int32)
    ensures (r as int - x) % 0x1_0000_0000 == 0
    ensures -0x8000_0000 <= x < 0x8000_0000 ==> r as int == x
  {
    var m := (x + 0x8000_0000) % 0x1_0000_0000;
    assert m - 0x8000_0000 - x == -0x1_0000_0000 * ((x + 0x8000_0000) / 0x1_0000_0000);
    (m - 0x8000_0000) as Int32
  }

  /**
   * `calculatePercentage`, in tenths of a percent: 0 for a zero total, otherwise
   * value·100/total rounded half up to one decimal (`Math.round(x·10)/10`).
   * The share r is 1000·value/total rounded half up: r - 1/2 <= 1000·value/total
   * < r + 1/2, written with both sides multiplied by 2·total.
   */
  function CalculatePercentage(value: int, total: int): (r: int)
    ensures total == 0 ==> r == 0
    ensures total > 0 ==> 2 * (total * r) - total <= 2000 * value < 2 * (total * r) + total
    ensures total < 0 ==> 2 * (total * r) + total < 2000 * value <= 2 * (total * r) - total
  {
    if total == 0 then 0
    else if total > 0 then (2000 * value + total) / (2 * total)
    else (-(2000 * value + total)) / (-2 * total)
  }

  lemma MulMonotone(t: int, a: int, b: int)
    requires t >= 0 && a <= b
    ensures t * a <= t * b
  {
    assert t * b - t * a == t * (b - a);
  }

  /** A share of a positive total that is neither negative nor above the total lies in 0.0 .. 100.0. */
  lemma PercentageBounds(value: int, total: int)
    requires total > 0 && 0 <= value <= total
    ensures 0 <= CalculatePercentage(value, total) <= 1000
  {
    var r := CalculatePercentage(value, total);
    if r < 0 {
      MulMonotone(total, r, -1);
    }
    if r > 1000 {
      MulMonotone(total, 1001, r);
    }
  }

  /** The sum of the values. */
  function Sum(values: seq<int>): int
    decreases |values|
  {
    if |values| == 0 then 0 else values[0] + Sum(values[1..])
  }

  /** The sum of the rounded shares of every value. */
  function SumOfShares(values: seq<int>, total: int): int
    decreases |values|
  {
    if |values| == 0 then 0 else CalculatePercentage(values[0], total) + SumOfShares(values[1..], total)
  }

  /** Each share is within half a tenth of its exact value, so n of them together are within n halves. */
  lemma {:induction false} SharesBracketSum(values: seq<int>, total: int)
    requires total > 0
    ensures var p := SumOfShares(values, total);
            && 2 * (total * p) - |values| * total <= 2000 * Sum(values)
            && (|values| > 0 ==> 2000 * Sum(values) < 2 * (total * p) + |values| * total)
    decreases |values|
  {
    if |values| > 0 {
      var rest := values[1..];
      SharesBracketSum(rest, total);
      var p := SumOfShares(rest, total);
      var q := CalculatePercentage(values[0], total);
      BracketStep(total, values[0], q, Sum(rest), p, |rest|, |values|);
    }
  }

  /** One more share, within half a tenth of its value, widens the bracket by one half. */
  lemma BracketStep(t: int, v: int, q: int, s: int, p: int, n: int, m: int)
    requires t > 0 && n >= 0 && m == n + 1
    requires 2 * (t * q) - t <= 2000 * v < 2 * (t * q) + t
    requires 2 * (t * p) - n * t <= 2000 * s
    requires n > 0 ==> 2000 * s < 2 * (t * p) + n * t
    requires n == 0 ==> s == 0 && p == 0
    ensures 2 * (t * (q + p)) - m * t <= 2000 * (v + s) < 2 * (t * (q + p)) + m * t
  {
    var b, w := t * p, n * t;
    assert t * (q + p) == t * q + b;
    assert m * t == (n + 1) * t == w + t;
    assert 2000 * s <= 2 * b + w by {
      if n == 0 {
        assert b == 0 && w == 0;
      }
    }
  }

  /**
   * Shares of the parts of a positive whole, each rounded to a tenth, add up to
   * 100.0 give or take half a tenth per part: n parts sum to within
   * (1000 - n/2, 1000 + n/2] tenths.
   */
  lemma SharesNearlyWhole(values: seq<int>, total: int)
    requires total > 0 && |values| > 0 && Sum(values) == total
    ensures 2000 - |values| < 2 * SumOfShares(values, total) <= 2000 + |values|
  {
    var p := SumOfShares(values, total);
    var n := |values|;
    SharesBracketSum(values, total);
    ScaledBracket(total, p, n);
  }

  /** From 2·t·p - n·t <= 2000·t < 2·t·p + n·t with t > 0, divide by t. */
  lemma ScaledBracket(t: int, p: int, n: int)
    requires t > 0
    requires 2 * (t * p) - n * t <= 2000 * t < 2 * (t * p) + n * t
    ensures 2000 - n < 2 * p <= 2000 + n
  {
    if 2 * p > 2000 + n {
      MulMonotone(t, 2001 + n, 2 * p);
    }
    if 2 * p <= 2000 - n {
      MulMonotone(t, 2 * p, 2000 - n);
    }
  }

  lemma SumOfTwo(a: int, b: int, total: int)
    ensures Sum([a, b]) == a + b
    ensures SumOfShares([a, b], total) == CalculatePercentage(a, total) + CalculatePercentage(b, total)
  {
    assert [b][1..] == [];
    assert Sum([b]) == b;
    assert SumOfShares([b], total) == CalculatePercentage(b, total);
    assert [a, b][1..] == [b];
  }

  lemma SumOfSix(a: int, b: int, c: int, d: int, e: int, f: int, total: int)
    ensures Sum([a, b, c, d, e, f]) == a + b + c + d + e + f
    ensures SumOfShares([a, b, c, d, e, f], total)
         == CalculatePercentage(a, total) + CalculatePercentage(b, total) + CalculatePercentage(c, total)
          + CalculatePercentage(d, total) + CalculatePercentage(e, total) + CalculatePercentage(f, total)
  {
    SumOfTwo(e, f, total);
    assert [d, e, f][1..] == [e, f];
    assert Sum([d, e, f]) == d + Sum([e, f]);
    assert SumOfShares([d, e, f], total) == CalculatePercentage(d, total) + SumOfShares([e, f], total);
    assert [c, d, e, f][1..] == [d, e, f];
    assert Sum([c, d, e, f]) == c + Sum([d, e, f]);
    assert SumOfShares([c, d, e, f], total) == CalculatePercentage(c, total) + SumOfShares([d, e, f], total);
    assert [b, c, d, e, f][1..] == [c, d, e, f];
    assert Sum([b, c, d, e, f]) == b + Sum([c, d, e, f]);
    assert SumOfShares([b, c, d, e, f], total) == CalculatePercentage(b, total) + SumOfShares([c, d, e, f], total);
    assert [a, b, c, d, e, f][1..] == [b, c, d, e, f];
  }

  // ---------------------------------------------------------------------------
  // The latest year
  // ---------------------------------------------------------------------------

  /**
   * The years can be compared: `max` only compares when there are two or more
   * rows, and unboxing a null year in a comparison throws.
   */
  predicate Comparable(years: seq<Option<Int32>>)
  {
    |years| == 1 || forall k :: 0 <= k < |years| ==> years[k].Some?
  }

  /**
   * `stream().max(comparing(year))`: the row with the greatest year, the first
   * of them on a tie (the reduction keeps its left operand when the years are equal).
   */
  function LatestOf(years: seq<Option<Int32>>): (r: nat)
    requires |years| > 0 && Comparable(years)
    ensures r < |years|
    ensures |years| > 1 ==> forall k :: 0 <= k < |years| ==> years[k].value <= years[r].value
    ensures |years| > 1 ==> forall k :: 0 <= k < r ==> years[k].value < years[r].value
    decreases |years|
  {
    if |years| == 1 then 0
    else
      var init := years[..|years| - 1];
      var m := LatestOf(init);
      assert |init| == 1 ==> m == 0;
      if years[m].value >= years[|years| - 1].value then m else |years| - 1
  }

  // ---------------------------------------------------------------------------
  // Age distribution
  // ---------------------------------------------------------------------------

  /** One year's row of the age feed; every member may be missing or null. */
  datatype AgeData = AgeData(
    under20: Option<Int32>,
    thirties: Option<Int32>,
    forties: Option<Int32>,
    fifties: Option<Int32>,
    sixties: Option<Int32>,
    over70: Option<Int32>,
    year: Option<Int32>)

  datatype AgeDistributionApiResponse = AgeDistributionApiResponse(data: Option<seq<AgeData>>)

  /** Shares in tenths of a percent. */
  datatype AgeDistribution = AgeDistribution(
    under20: int, thirties: int, forties: int, fifties: int, sixties: int, over70: int)

  predicate AgeBucketsKnown(d: AgeData)
  {
    d.under20.Some? && d.thirties.Some? && d.forties.Some? && d.fifties.Some? && d.sixties.Some? && d.over70.Some?
  }

  /** The exact sum of the six buckets. */
  function AgeSum(d: AgeData): int
    requires AgeBucketsKnown(d)
  {
    d.under20.value as int + d.thirties.value as int + d.forties.value as int
      + d.fifties.value as int + d.sixties.value as int + d.over70.value as int
  }

  /** The six buckets summed as Java `int`s: the exact sum when it fits, wrapped otherwise. */
  function AgeTotal(d: AgeData): (r: Int32)
    requires AgeBucketsKnown(d)
  {
    Wrap32(AgeSum(d))
  }

  /** Each bucket's share of the total of the six. */
  function AgeShares(d: AgeData): AgeDistribution
    requires AgeBucketsKnown(d)
  {
    var t := AgeTotal(d) as int;
    AgeDistribution(
      CalculatePercentage(d.under20.value as int, t),
      CalculatePercentage(d.thirties.value as int, t),
      CalculatePercentage(d.forties.value as int, t),
      CalculatePercentage(d.fifties.value as int, t),
      CalculatePercentage(d.sixties.value as int, t),
      CalculatePercentage(d.over70.value as int, t))
  }

  /** With a positive total that fits in an `int`, the six shares add up to 99.8 .. 100.3 percent. */
  lemma AgeSharesNearlyWhole(d: AgeData)
    requires AgeBucketsKnown(d)
    requires 0 < AgeSum(d) < 0x8000_0000
    ensures var a := AgeShares(d);
            998 <= a.under20 + a.thirties + a.forties + a.fifties + a.sixties + a.over70 <= 1003
  {
    var t := AgeSum(d);
    var b := [d.under20.value as int, d.thirties.value as int, d.forties.value as int,
              d.fifties.value as int, d.sixties.value as int, d.over70.value as int];
    SumOfSix(b[0], b[1], b[2], b[3], b[4], b[5], t);
    SharesNearlyWhole(b, t);
  }

  function AgeYears(data: seq<AgeData>): (r: seq<Option<Int32>>)
    ensures |r| == |data| && forall k :: 0 <= k < |data| ==> r[k] == data[k].year
  {
    seq(|data|, k requires 0 <= k < |data| => data[k].year)
  }

  /** The feed delivered no rows: a null reply, a null row list or an empty one. */
  predicate NoRows<T>(response: Remote<Option<seq<T>>>)
  {
    response.Delivered? && (response.body.None? || response.body.value.None? || |response.body.value.value| == 0)
  }

  /** The rows of the age feed's reply, when one was delivered. */
  function AgeRows(response: Remote<AgeDistributionApiResponse>): Remote<Option<seq<AgeData>>>
  {
    match response
    case CallFailed => CallFailed
    case Delivered(body) => Delivered(if body.None? then None else Some(body.value.data))
  }

  /**
   * `getAgeDistribution`: no rows is `DASHBOARD_AGE_DATA_NOT_FOUND`; a failed
   * call, or a null that the code dereferences (a year, when there are several
   * rows, or a bucket of the chosen row), is `DASHBOARD_EXTERNAL_API_ERROR`.
   * `DASHBOARD_AGE_LATEST_DATA_NOT_FOUND` is never raised: `max` of a non-empty
   * list always has a value. Otherwise: the shares of the latest year's row.
   */
  function GetAgeDistribution(response: Remote<AgeDistributionApiResponse>): (r: Result<AgeDistribution, DashboardError>)
    ensures r == Err(AgeDataNotFound) <==> NoRows(AgeRows(response))
    ensures r.Err? ==> r.error == AgeDataNotFound || r.error == ExternalApiError
    ensures response.CallFailed? ==> r == Err(ExternalApiError)
    ensures r.Ok? <==>
              && response.Delivered? && !NoRows(AgeRows(response))
              && var data := AgeRows(response).body.value.value;
                 Comparable(AgeYears(data)) && AgeBucketsKnown(data[LatestOf(AgeYears(data))])
    ensures r.Ok? ==>
              var data := AgeRows(response).body.value.value;
              && |data| > 0 && Comparable(AgeYears(data))
              && AgeBucketsKnown(data[LatestOf(AgeYears(data))])
              && r.value == AgeShares(data[LatestOf(AgeYears(data))])
  {
    match AgeRows(response)
    case CallFailed => Err(ExternalApiError)
    case Delivered(rows) =>
      if rows.None? || rows.value.None? || |rows.value.value| == 0 then Err(AgeDataNotFound)
      else
        var data := rows.value.value;
        var years := AgeYears(data);
        if !Comparable(years) then Err(ExternalApiError)
        else
          var latest := data[LatestOf(years)];
          if !AgeBucketsKnown(latest) then Err(ExternalApiError)
          else Ok(AgeShares(latest))
  }

  // ---------------------------------------------------------------------------
  // Gender distribution
  // ---------------------------------------------------------------------------

  datatype GenderData = GenderData(year: Option<Int32>, male: Option<Int32>, female: Option<Int32>)

  datatype GenderDistributionApiResponse = GenderDistributionApiResponse(data: Option<seq<GenderData>>)

  /** Shares in tenths of a percent. */
  datatype GenderDistribution = GenderDistribution(male: int, female: int)

  /** Male and female shares of their `int` sum. */
  function GenderShares(d: GenderData): GenderDistribution
    requires d.male.Some? && d.female.Some?
  {
    var t := Wrap32(d.male.value as int + d.female.value as int) as int;
    GenderDistribution(CalculatePercentage(d.male.value as int, t), CalculatePercentage(d.female.value as int, t))
  }

  /** With a positive total that fits in an `int`, the two shares add up to 100.0 or 100.1 percent. */
  lemma GenderSharesNearlyWhole(d: GenderData)
    requires d.male.Some? && d.female.Some?
    requires 0 < d.male.value as int + d.female.value as int < 0x8000_0000
    ensures 1000 <= GenderShares(d).male + GenderShares(d).female <= 1001
  {
    var t := d.male.value as int + d.female.value as int;
    SumOfTwo(d.male.value as int, d.female.value as int, t);
    SharesNearlyWhole([d.male.value as int, d.female.value as int], t);
  }

  function GenderYears(data: seq<GenderData>): (r: seq<Option<Int32>>)
    ensures |r| == |data| && forall k :: 0 <= k < |data| ==> r[k] == data[k].year
  {
    seq(|data|, k requires 0 <= k < |data| => data[k].year)
  }

  function GenderRows(response: Remote<GenderDistributionApiResponse>): Remote<Option<seq<GenderData>>>
  {
    match response
    case CallFailed => CallFailed
    case Delivered(body) => Delivered(if body.None? then None else Some(body.value.data))
  }

  /** `getGenderDistribution`: as the age distribution, with its own not-found status. */
  function GetGenderDistribution(response: Remote<GenderDistributionApiResponse>)
    : (r: Result<GenderDistribution, DashboardError>)
    ensures r == Err(GenderDataNotFound) <==> NoRows(GenderRows(response))
    ensures r.Err? ==> r.error == GenderDataNotFound || r.error == ExternalApiError
    ensures response.CallFailed? ==> r == Err(ExternalApiError)
    ensures r.Ok? <==>
              && response.Delivered? && !NoRows(GenderRows(response))
              && var data := GenderRows(response).body.value.value;
                 Comparable(GenderYears(data))
                 && data[LatestOf(GenderYears(data))].male.Some? && data[LatestOf(GenderYears(data))].female.Some?
    ensures r.Ok? ==>
              var data := GenderRows(response).body.value.value;
              && |data| > 0 && Comparable(GenderYears(data))
              && data[LatestOf(GenderYears(data))].male.Some? && data[LatestOf(GenderYears(data))].female.Some?
              && r.value == GenderShares(data[LatestOf(GenderYears(data))])
  {
    match GenderRows(response)
    case CallFailed => Err(ExternalApiError)
    case Delivered(rows) =>
      if rows.None? || rows.value.None? || |rows.value.value| == 0 then Err(GenderDataNotFound)
      else
        var data := rows.value.value;
        var years := GenderYears(data);
        if !Comparable(years) then Err(ExternalApiError)
        else
          var latest := data[LatestOf(years)];
          if latest.male.None? || latest.female.None? then Err(ExternalApiError)
          else Ok(GenderShares(latest))
  }

  // ---------------------------------------------------------------------------
  // Today's detections and the whole dashboard
  // ---------------------------------------------------------------------------

  /**
   * `getTodayDetection`: analyses of `today` (a day number) scored at least 50,
   * counted over [start of today, start of tomorrow).
   */
  function GetTodayDetection(histories: seq<AnalysisHistory>, today: int): (r: nat)
    ensures r <= |histories|
    ensures r == 0 <==>
              forall h :: h in histories ==>
                !(h.riskScore.Some? && h.riskScore.value >= 50
                  && today * SecondsPerDay <= h.createdAt < (today + 1) * SecondsPerDay)
  {
    CountByRiskScoreGreaterThanEqualAndCreatedAtBetween(
      histories, DetectionThreshold, today * SecondsPerDay, (today + 1) * SecondsPerDay)
  }

  /**
   * A new analysis raises today's count by one exactly when it is scored at
   * least 50 and created today; otherwise the count stays as it was.
   */
  lemma TodayDetectionAppend(histories: seq<AnalysisHistory>, h: AnalysisHistory, today: int)
    ensures GetTodayDetection(histories + [h], today)
         == GetTodayDetection(histories, today)
            + (if h.riskScore.Some? && h.riskScore.value >= 50
                  && today * SecondsPerDay <= h.createdAt < (today + 1) * SecondsPerDay then 1 else 0)
  {
    CountAppend(histories, [h], DetectionThreshold, today * SecondsPerDay, (today + 1) * SecondsPerDay);
    assert [h][..0] == [];
  }

  /** Fixed figures: won, percent, won per person, incidents per day. */
  datatype TotalDamageStats = TotalDamageStats(
    totalDamageAmount: int,
    yearOverYearChangeRate: real,
    averageDamagePerPerson: int,
    dailyAverageIncidents: real)

  /** `createMockTotalDamageStats`. */
  const MockTotalDamageStats := TotalDamageStats(1_133_000_000_000, 56.1, 18_676, 15.6)

  datatype DashboardResponse = DashboardResponse(
    todayDetection: nat,
    totalDamageStats: TotalDamageStats,
    ageDistribution: AgeDistribution,
    genderDistribution: GenderDistribution)

  /**
   * `getDashboardData`: today's count, then the age feed, then the gender feed;
   * the first failure is the one reported, so an age error hides a gender error.
   */
  function GetDashboardData(
    histories: seq<AnalysisHistory>, today: int,
    ageResponse: Remote<AgeDistributionApiResponse>,
    genderResponse: Remote<GenderDistributionApiResponse>)
    : (r: Result<DashboardResponse, DashboardError>)
    ensures GetAgeDistribution(ageResponse).Err? ==> r == Err(GetAgeDistribution(ageResponse).error)
    ensures GetAgeDistribution(ageResponse).Ok? && GetGenderDistribution(genderResponse).Err? ==>
              r == Err(GetGenderDistribution(genderResponse).error)
    ensures r.Ok? <==> GetAgeDistribution(ageResponse).Ok? && GetGenderDistribution(genderResponse).Ok?
    ensures r.Ok? ==>
              && r.value.todayDetection == GetTodayDetection(histories, today)
              && r.value.totalDamageStats == MockTotalDamageStats
              && r.value.ageDistribution == GetAgeDistribution(ageResponse).value
              && r.value.genderDistribution == GetGenderDistribution(genderResponse).value
  {
    var todayDetection := GetTodayDetection(histories, today);
    var age := GetAgeDistribution(ageResponse);
    if age.Err? then Err(age.error)
    else
      var gender := GetGenderDistribution(genderResponse);
      if gender.Err? then Err(gender.error)
      else Ok(DashboardResponse(todayDetection, MockTotalDamageStats, age.value, gender.value))
  }
}
