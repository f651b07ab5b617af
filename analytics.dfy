/** The data shaping of the analytics screen: the statistics record it
    fetches, the URL it fetches it from, the rounded percentages, the
    per-sector chart columns, the time-range labels, the day divisor and the
    "top sector" figure. */
module Analytics {
  import opened Wrappers
  import opened Strings

  /** One entry of `sector_breakdown`: the sector's key and its counts. */
  datatype SectorCounts = SectorCounts(name: string, total: nat, positive: nat, negative: nat)

  /** The statistics record. The breakdown is kept in the order in which
      `Object.keys` and `Object.entries` list the keys of the JSON object. */
  datatype FeedbackStats = FeedbackStats(
    totalFeedbacks: nat,
    totalPositive: nat,
    totalNegative: nat,
    sectorBreakdown: seq<SectorCounts>)

  /** The keys of a JavaScript object are distinct; a breakdown that comes
      from a parsed object satisfies this. */
  predicate UniqueNames(bd: seq<SectorCounts>) {
    forall i, j :: 0 <= i < j < |bd| ==> bd[i].name != bd[j].name
  }

  // ------------------------------------------------------------------
  // The stats endpoint

  const StatsEndpoint: string := "http://127.0.0.1:8000/api/feedbackstats"
  const DaysQuery: string := "/?days="

  /** The URL requested for a time-range value. */
  function StatsUrl(days: string): string {
    if days == "all" then StatsEndpoint else StatsEndpoint + DaysQuery + days
  }

  /** "all" asks for the bare endpoint, with no query and no trailing slash;
      every other value is passed verbatim as the `days` query parameter. */
  lemma StatsUrlShape(days: string)
    ensures StatsEndpoint <= StatsUrl(days)
    ensures days == "all" ==> StatsUrl(days) == StatsEndpoint && '?' !in StatsUrl(days)
                              && StatsUrl(days)[|StatsUrl(days)| - 1] != '/'
    ensures days != "all" ==> StatsUrl(days) == StatsEndpoint + "/?days=" + days
  {
  }

  /** Different time-range values never request the same URL. */
  lemma StatsUrlInjective(a: string, b: string)
    requires StatsUrl(a) == StatsUrl(b)
    ensures a == b
  {
    var n := |StatsEndpoint + DaysQuery|;
    if a != "all" && b != "all" {
      assert StatsUrl(a)[n..] == a;
      assert StatsUrl(b)[n..] == b;
    }
  }

  // ------------------------------------------------------------------
  // Rounding

  /** The JavaScript numbers that `Math.round` of a quotient of two counts
      can produce: a whole number, or `NaN` (0 / 0) or `Infinity` (n / 0). */
  datatype Rounded = Whole(value: nat) | NaN | Infinity

  /** `${r}` */
  function RoundedText(r: Rounded): (s: string)
    ensures s != [] && ',' !in s && '\n' !in s && '"' !in s
  {
    match r
    case Whole(n) => NatToString(n)
    case NaN => "NaN"
    case Infinity => "Infinity"
  }

  /** `Math.round(n / d)` in exact arithmetic: the integer nearest to n / d,
      halves rounded up. */
  function RoundDiv(n: nat, d: nat): nat
    requires d > 0
  {
    (2 * n + d) / (2 * d)
  }

  /** The rounded quotient is within one half of n / d, halves going up. */
  lemma RoundDivBounds(n: nat, d: nat)
    requires d > 0
    ensures 2 * n - d < (2 * d) * RoundDiv(n, d) <= 2 * n + d
  {
  }

  /** Dividing out a positive factor: k * a < k * b + k gives a <= b. */
  lemma ScaledOrder(k: int, a: int, b: int)
    requires k > 0 && k * a < k * b + k
    ensures a <= b
  {
    if a > b {
      var c := a - b;
      assert k * a == k * b + k * c;
      MulAtLeast(k, c);
    }
  }

  lemma {:induction false} MulAtLeast(k: int, c: int)
    requires k > 0 && c >= 1
    ensures k * c >= k
    decreases c
  {
    if c > 1 {
      MulAtLeast(k, c - 1);
      assert k * c == k * (c - 1) + k;
    }
  }

  /** The rounding is determined by its contract. */
  lemma RoundDivUnique(n: nat, d: nat, r: nat)
    requires d > 0
    requires 2 * n - d < (2 * d) * r <= 2 * n + d
    ensures r == RoundDiv(n, d)
  {
    var q := RoundDiv(n, d);
    RoundDivBounds(n, d);
    ScaledOrder(2 * d, r, q);
    ScaledOrder(2 * d, q, r);
  }

  /** `Math.round(n / d)` including the zero divisor. */
  function Quotient(n: nat, d: nat): (r: Rounded)
    ensures r.Whole? <==> d > 0
    ensures r.NaN? <==> d == 0 && n == 0
  {
    if d > 0 then Whole(RoundDiv(n, d)) else if n == 0 then NaN else Infinity
  }

  /** A part as a rounded whole percentage of a total. */
  function Percentage(part: nat, total: nat): Rounded {
    Quotient(100 * part, total)
  }

  /** A share of a positive total is a whole percentage in 0..100, 0 for no
      part and 100 for the whole. */
  lemma PercentageBounds(part: nat, total: nat)
    requires 0 < total && part <= total
    ensures Percentage(part, total).Whole?
    ensures Percentage(part, total).value <= 100
    ensures part == 0 ==> Percentage(part, total).value == 0
    ensures part == total ==> Percentage(part, total).value == 100
  {
    var k := 2 * total;
    var r := RoundDiv(100 * part, total);
    RoundDivBounds(100 * part, total);
    assert k * 100 == 200 * total;
    ScaledOrder(k, r, 100);
    if part == 0 {
      assert k * 0 == 0;
      ScaledOrder(k, r, 0);
    }
    if part == total {
      ScaledOrder(k, 100, r);
    }
  }

  /** A larger part never gets a smaller percentage. */
  lemma PercentageMonotone(a: nat, b: nat, total: nat)
    requires 0 < total && a <= b
    ensures Percentage(a, total).value <= Percentage(b, total).value
  {
    RoundDivBounds(100 * a, total);
    RoundDivBounds(100 * b, total);
    ScaledOrder(2 * total, RoundDiv(100 * a, total), RoundDiv(100 * b, total));
  }

  /** When two parts make up the total their rounded percentages add up to
      100, or to 101 when both shares end in exactly one half. */
  lemma ComplementaryPercentages(pos: nat, neg: nat, total: nat)
    requires 0 < total && pos + neg == total
    ensures 100 <= Percentage(pos, total).value + Percentage(neg, total).value <= 101
  {
    var k := 2 * total;
    var rp, rn := RoundDiv(100 * pos, total), RoundDiv(100 * neg, total);
    RoundDivBounds(100 * pos, total);
    RoundDivBounds(100 * neg, total);
    assert k * (rp + rn) == k * rp + k * rn;
    assert k * 100 == 200 * total;
    assert k * 101 == 202 * total;
    ScaledOrder(k, 100, rp + rn);
    ScaledOrder(k, rp + rn, 101);
  }

  lemma PercentageExamples()
    ensures Percentage(80, 100) == Whole(80) && Percentage(20, 100) == Whole(20)
    ensures Percentage(50, 60) == Whole(83) && Percentage(10, 60) == Whole(17)
    ensures Percentage(101, 200) == Whole(51) && Percentage(99, 200) == Whole(50)
    ensures Percentage(0, 0) == NaN && Percentage(3, 0) == Infinity
  {
  }

  /** `positivePercentage`: 0 while no statistics are loaded. */
  function PositivePercentage(stats: Option<FeedbackStats>): (r: Rounded)
    ensures stats.None? ==> r == Whole(0)
    ensures stats.Some? && 0 < stats.value.totalFeedbacks && stats.value.totalPositive <= stats.value.totalFeedbacks
            ==> r.Whole? && r.value <= 100
  {
    match stats
    case None => Whole(0)
    case Some(s) =>
      var p := Percentage(s.totalPositive, s.totalFeedbacks);
      assert 0 < s.totalFeedbacks && s.totalPositive <= s.totalFeedbacks ==> p.Whole? && p.value <= 100 by {
        if 0 < s.totalFeedbacks && s.totalPositive <= s.totalFeedbacks {
          PercentageBounds(s.totalPositive, s.totalFeedbacks);
        }
      }
      p
  }

  /** `negativePercentage`: 0 while no statistics are loaded. */
  function NegativePercentage(stats: Option<FeedbackStats>): (r: Rounded)
    ensures stats.None? ==> r == Whole(0)
    ensures stats.Some? && 0 < stats.value.totalFeedbacks && stats.value.totalNegative <= stats.value.totalFeedbacks
            ==> r.Whole? && r.value <= 100
  {
    match stats
    case None => Whole(0)
    case Some(s) =>
      var p := Percentage(s.totalNegative, s.totalFeedbacks);
      assert 0 < s.totalFeedbacks && s.totalNegative <= s.totalFeedbacks ==> p.Whole? && p.value <= 100 by {
        if 0 < s.totalFeedbacks && s.totalNegative <= s.totalFeedbacks {
          PercentageBounds(s.totalNegative, s.totalFeedbacks);
        }
      }
      p
  }

  // ------------------------------------------------------------------
  // Time ranges

  datatype TimeRange = TimeRange(value: string, caption: string)

  const TimeRanges: seq<TimeRange> := [
    TimeRange("7", "Last 7 days"),
    TimeRange("30", "Last 30 days"),
    TimeRange("90", "Last 90 days"),
    TimeRange("all", "All time")
  ]

  /** The caption of the first range whose value equals `value`, searching from
      position `from` on: the caption of the first range with that value,
      `None` for `undefined`. */
  function FindLabel(ranges: seq<TimeRange>, value: string, from: nat := 0): (r: Option<string>)
    requires from <= |ranges|
    ensures r.None? <==> forall i :: from <= i < |ranges| ==> ranges[i].value != value
    decreases |ranges| - from
  {
    if from == |ranges| then None
    else if ranges[from].value == value then Some(ranges[from].caption)
    else FindLabel(ranges, value, from + 1)
  }

  /** The found caption is the one of the first range whose value matches. */
  lemma {:induction false} FindLabelFirst(ranges: seq<TimeRange>, value: string, k: nat, from: nat := 0)
    requires from <= k < |ranges| && ranges[k].value == value
    requires forall j :: from <= j < k ==> ranges[j].value != value
    ensures FindLabel(ranges, value, from) == Some(ranges[k].caption)
    decreases k - from
  {
    if from < k {
      FindLabelFirst(ranges, value, k, from + 1);
    }
  }

  /** Each of the four selectable values has its own label; any other value
      has none. */
  lemma TimeRangeLabels(value: string)
    ensures FindLabel(TimeRanges, "7") == Some("Last 7 days")
    ensures FindLabel(TimeRanges, "30") == Some("Last 30 days")
    ensures FindLabel(TimeRanges, "90") == Some("Last 90 days")
    ensures FindLabel(TimeRanges, "all") == Some("All time")
    ensures value != "7" && value != "30" && value != "90" && value != "all"
            ==> FindLabel(TimeRanges, value) == None
  {
    FindLabelFirst(TimeRanges, "7", 0);
    FindLabelFirst(TimeRanges, "30", 1);
    FindLabelFirst(TimeRanges, "90", 2);
    FindLabelFirst(TimeRanges, "all", 3);
  }

  /** Text that a CSV cell can hold without breaking its row or line. */
  predicate PlainText(s: string) {
    forall i :: 0 <= i < |s| ==> s[i] != ',' && s[i] != '\n'
  }

  /** The label lookup of the summary tables: `?.label || ""`, so one of the
      four labels, or the empty string for any other value. */
  function ExportLabel(value: string): (l: string)
    ensures l in ["Last 7 days", "Last 30 days", "Last 90 days", "All time", ""]
    ensures l == "" <==> value != "7" && value != "30" && value != "90" && value != "all"
    ensures PlainText(l)
  {
    TimeRangeLabels(value);
    FindLabel(TimeRanges, value).GetOr("")
  }

  // ------------------------------------------------------------------
  // Day divisor and trend length

  /** The number of days a range spans: 90 for "all", otherwise the number
      `parseInt` reads from the value; `None` is `NaN`. */
  function DayDivisor(timeRange: string): (d: Option<nat>)
    ensures timeRange == "all" ==> d == Some(90)
    ensures d.None? <==> timeRange != "all" && (timeRange == [] || !IsDigit(timeRange[0]))
  {
    if timeRange == "all" then Some(90) else ParseInt(timeRange)
  }

  /** A range given as a count of days divides by that count. */
  lemma DayDivisorOfCount(n: nat)
    ensures DayDivisor(NatToString(n)) == Some(n)
  {
    ParseIntOfNatToString(n);
  }

  lemma DayDivisorOfFixedRanges()
    ensures DayDivisor("7") == Some(7) && DayDivisor("30") == Some(30)
    ensures DayDivisor("90") == Some(90) && DayDivisor("all") == Some(90)
  {
    DayDivisorOfCount(7);
    assert NatToString(7) == "7";
    DayDivisorOfCount(30);
    assert NatToString(30) == "30";
    DayDivisorOfCount(90);
    assert NatToString(90) == "90";
  }

  /** The number of points of the trend chart: one per day of the range,
      none when the day count is `NaN`. */
  function TrendLength(timeRange: string): (n: nat)
    ensures DayDivisor(timeRange).Some? ==> n == DayDivisor(timeRange).value
    ensures DayDivisor(timeRange).None? ==> n == 0
  {
    match DayDivisor(timeRange)
    case Some(d) => d
    case None => 0
  }

  /** The trend chart's labels "Day 1", "Day 2", ..., one per day. */
  function TrendLabels(timeRange: string): (labels: seq<string>)
    ensures |labels| == TrendLength(timeRange)
    ensures forall i :: 0 <= i < |labels| ==> labels[i] == "Day " + NatToString(i + 1)
  {
    seq(TrendLength(timeRange), i requires 0 <= i => "Day " + NatToString(i + 1))
  }

  /** The four selectable ranges give trends of 7, 30, 90 and 90 days; the
      week's trend ends at "Day 7". */
  lemma TrendOfFixedRanges()
    ensures TrendLength("7") == 7 && TrendLength("30") == 30
    ensures TrendLength("90") == 90 && TrendLength("all") == 90
    ensures TrendLabels("7")[0] == "Day 1" && TrendLabels("7")[6] == "Day 7"
  {
    DayDivisorOfFixedRanges();
    assert NatToString(1) == "1";
    assert NatToString(7) == "7";
  }

  /** A range written as a day count has one trend point per day. */
  lemma TrendOfCount(n: nat)
    ensures TrendLength(NatToString(n)) == n
    ensures |TrendLabels(NatToString(n))| == n
  {
    DayDivisorOfCount(n);
  }

  /** The number in each trend label reads back as the day it stands for,
      counting from 1. */
  lemma TrendLabelNumber(timeRange: string, i: nat)
    requires i < TrendLength(timeRange)
    ensures "Day " <= TrendLabels(timeRange)[i]
    ensures ParseInt(TrendLabels(timeRange)[i][4..]) == Some(i + 1)
  {
    var l := TrendLabels(timeRange)[i];
    assert l[4..] == NatToString(i + 1);
    ParseIntOfNatToString(i + 1);
  }

  /** No two days of the trend share a label. */
  lemma TrendLabelsDistinct(timeRange: string, i: nat, j: nat)
    requires i < j < TrendLength(timeRange)
    ensures TrendLabels(timeRange)[i] != TrendLabels(timeRange)[j]
  {
    var labels := TrendLabels(timeRange);
    if labels[i] == labels[j] {
      assert labels[i][4..] == NatToString(i + 1);
      assert labels[j][4..] == NatToString(j + 1);
      NatToStringInjective(i + 1, j + 1);
    }
  }

  /** "Avg. Daily Feedback": the total divided by the day count, rounded. */
  function AverageDaily(stats: FeedbackStats, timeRange: string): (r: Rounded)
    ensures DayDivisor(timeRange).None? ==> r == NaN
    ensures DayDivisor(timeRange).Some? && DayDivisor(timeRange).value > 0 ==>
      var d := DayDivisor(timeRange).value;
      r.Whole? && 2 * stats.totalFeedbacks - d < 2 * d * r.value <= 2 * stats.totalFeedbacks + d
  {
    match DayDivisor(timeRange)
    case None => NaN
    case Some(d) =>
      var n := stats.totalFeedbacks;
      assert d > 0 ==> 2 * n - d < 2 * d * RoundDiv(n, d) <= 2 * n + d by {
        if d > 0 {
          RoundDivBounds(n, d);
        }
      }
      Quotient(n, d)
  }

  // ------------------------------------------------------------------
  // Sector columns

  function Names(bd: seq<SectorCounts>): (names: seq<string>)
    ensures |names| == |bd|
    ensures forall i :: 0 <= i < |bd| ==> names[i] == bd[i].name
  {
    seq(|bd|, i requires 0 <= i < |bd| => bd[i].name)
  }

  /** The sector labels: none while no statistics are loaded, else the keys
      of the breakdown. */
  function SectorNames(stats: Option<FeedbackStats>): (names: seq<string>)
    ensures stats.None? ==> names == []
    ensures stats.Some? ==> names == Names(stats.value.sectorBreakdown)
  {
    match stats
    case None => []
    case Some(s) => Names(s.sectorBreakdown)
  }

  /** `sector_breakdown[name]`: the entry stored under that key (the first,
      were there several), `None` for `undefined`. */
  function Find(bd: seq<SectorCounts>, name: string): (r: Option<SectorCounts>)
    ensures r.None? <==> forall i :: 0 <= i < |bd| ==> bd[i].name != name
    ensures r.Some? ==> r.value in bd && r.value.name == name
  {
    if bd == [] then None
    else if bd[0].name == name then Some(bd[0])
    else
      var r := Find(bd[1..], name);
      assert r.None? ==> forall i :: 0 <= i < |bd| ==> bd[i].name != name by {
        if r.None? {
          forall i | 0 <= i < |bd| ensures bd[i].name != name {
            if i > 0 {
              assert bd[i] == bd[1..][i - 1];
            }
          }
        }
      }
      r
  }

  /** With distinct keys, looking up an entry's key finds that entry. */
  lemma {:induction false} FindUnique(bd: seq<SectorCounts>, i: nat)
    requires UniqueNames(bd) && i < |bd|
    ensures Find(bd, bd[i].name) == Some(bd[i])
  {
    if i > 0 {
      assert bd[0].name != bd[i].name;
      assert UniqueNames(bd[1..]) by {
        forall a, b | 0 <= a < b < |bd[1..]|
          ensures bd[1..][a].name != bd[1..][b].name
        {
          assert bd[1..][a] == bd[a + 1] && bd[1..][b] == bd[b + 1];
        }
      }
      FindUnique(bd[1..], i - 1);
      assert bd[1..][i - 1] == bd[i];
    }
  }

  /** One count of the entry stored under a name, and likewise for the other
      two counts. The chart columns fall back to 0 for a falsy count, which
      gives the count itself; a name that is not a key would make the source
      throw a TypeError, and the `None => 0` branch stands for that throw. It
      is never taken: every name looked up is one of the keys (`FindUnique`).
      The top-sector comparison has no fallback at all. */
  function TotalOf(bd: seq<SectorCounts>, name: string): nat {
    match Find(bd, name)
    case Some(e) => e.total
    case None => 0
  }

  function PositiveOf(bd: seq<SectorCounts>, name: string): nat {
    match Find(bd, name)
    case Some(e) => e.positive
    case None => 0
  }

  function NegativeOf(bd: seq<SectorCounts>, name: string): nat {
    match Find(bd, name)
    case Some(e) => e.negative
    case None => 0
  }

  /** The positive count of each sector label, in label order. */
  function PositiveColumn(stats: Option<FeedbackStats>): (col: seq<nat>)
    ensures |col| == |SectorNames(stats)|
  {
    match stats
    case None => []
    case Some(s) =>
      var names := Names(s.sectorBreakdown);
      seq(|names|, i requires 0 <= i < |names| => PositiveOf(s.sectorBreakdown, names[i]))
  }

  /** The negative count of each sector label, in label order. */
  function NegativeColumn(stats: Option<FeedbackStats>): (col: seq<nat>)
    ensures |col| == |SectorNames(stats)|
  {
    match stats
    case None => []
    case Some(s) =>
      var names := Names(s.sectorBreakdown);
      seq(|names|, i requires 0 <= i < |names| => NegativeOf(s.sectorBreakdown, names[i]))
  }

  /** The total count of each sector label, in label order. */
  function TotalColumn(stats: Option<FeedbackStats>): (col: seq<nat>)
    ensures |col| == |SectorNames(stats)|
  {
    match stats
    case None => []
    case Some(s) =>
      var names := Names(s.sectorBreakdown);
      seq(|names|, i requires 0 <= i < |names| => TotalOf(s.sectorBreakdown, names[i]))
  }

  /** The chart columns line up with the sector labels: position i of each
      column holds the count of the sector named at position i. */
  lemma ColumnsAligned(stats: Option<FeedbackStats>)
    requires stats.Some? ==> UniqueNames(stats.value.sectorBreakdown)
    ensures stats.None? ==> PositiveColumn(stats) == [] && NegativeColumn(stats) == [] && TotalColumn(stats) == []
    ensures stats.Some? ==>
      var bd := stats.value.sectorBreakdown;
      && |PositiveColumn(stats)| == |bd| && |NegativeColumn(stats)| == |bd| && |TotalColumn(stats)| == |bd|
      && forall i :: 0 <= i < |bd| ==>
           && SectorNames(stats)[i] == bd[i].name
           && PositiveColumn(stats)[i] == bd[i].positive
           && NegativeColumn(stats)[i] == bd[i].negative
           && TotalColumn(stats)[i] == bd[i].total
  {
    if stats.Some? {
      var bd := stats.value.sectorBreakdown;
      forall i | 0 <= i < |bd|
        ensures PositiveColumn(stats)[i] == bd[i].positive
        ensures NegativeColumn(stats)[i] == bd[i].negative
        ensures TotalColumn(stats)[i] == bd[i].total
      {
        FindUnique(bd, i);
      }
    }
  }

  // ------------------------------------------------------------------
  // Top sector

  /** The reduce over a non-empty list of names that keeps the accumulated
      name when its total is strictly larger and otherwise takes the next
      one: a left fold, written here on the prefix that precedes the last
      name. */
  function ReduceTop(bd: seq<SectorCounts>, names: seq<string>): (top: string)
    requires |names| > 0
    ensures top in names
  {
    if |names| == 1 then names[0]
    else
      var a := ReduceTop(bd, names[..|names| - 1]);
      var b := names[|names| - 1];
      if TotalOf(bd, a) > TotalOf(bd, b) then a else b
  }

  /** The "Top Sector" figure; `None` when there are no sectors, where the
      `reduce` without an initial value throws a TypeError. */
  function TopSector(stats: Option<FeedbackStats>): (r: Option<string>)
    ensures r.None? <==> SectorNames(stats) == []
    ensures r.Some? ==> r.value in SectorNames(stats)
  {
    var names := SectorNames(stats);
    if names == [] then None else Some(ReduceTop(stats.value.sectorBreakdown, names))
  }

  /** Among the first m sectors, sector k has the largest total and every
      later one a strictly smaller total: k is the last of maximal total. */
  predicate IsLastMaximumWithin(bd: seq<SectorCounts>, m: int, k: int) {
    && 0 <= k < m <= |bd|
    && (forall j :: 0 <= j < m ==> bd[j].total <= bd[k].total)
    && (forall j :: k < j < m ==> bd[j].total < bd[k].total)
  }

  /** Sector k is the last sector of maximal total in the whole breakdown. */
  predicate IsLastMaximum(bd: seq<SectorCounts>, k: int) {
    IsLastMaximumWithin(bd, |bd|, k)
  }

  /** Extending the range by one sector keeps or moves the last maximum as
      the strict comparison does. */
  lemma LastMaximumStep(bd: seq<SectorCounts>, m: nat, k: nat)
    requires 1 < m <= |bd| && IsLastMaximumWithin(bd, m - 1, k)
    ensures IsLastMaximumWithin(bd, m, if bd[k].total > bd[m - 1].total then k else m - 1)
  {
  }

  /** The position the fold over the first m names ends on. */
  function TopIndex(bd: seq<SectorCounts>, m: nat): (k: nat)
    requires 0 < m <= |bd|
    ensures k < m
  {
    if m == 1 then 0
    else
      var k := TopIndex(bd, m - 1);
      if bd[k].total > bd[m - 1].total then k else m - 1
  }

  lemma {:induction false} TopIndexIsLastMaximum(bd: seq<SectorCounts>, m: nat)
    requires 0 < m <= |bd|
    ensures IsLastMaximumWithin(bd, m, TopIndex(bd, m))
  {
    if m > 1 {
      TopIndexIsLastMaximum(bd, m - 1);
      LastMaximumStep(bd, m, TopIndex(bd, m - 1));
    }
  }

  /** The fold over the names of the first sectors ends on the name of
      sector `TopIndex`. */
  lemma {:induction false} ReduceIsTopIndex(bd: seq<SectorCounts>, names: seq<string>)
    requires UniqueNames(bd) && 0 < |names| <= |bd|
    requires forall i :: 0 <= i < |names| ==> names[i] == bd[i].name
    ensures ReduceTop(bd, names) == bd[TopIndex(bd, |names|)].name
  {
    var m := |names|;
    if m > 1 {
      ReduceIsTopIndex(bd, names[..m - 1]);
      ReduceStep(bd, names, TopIndex(bd, m - 1));
    }
  }

  /** One step of the fold, given what the lookups of the two compared
      names find. */
  lemma ReduceStep(bd: seq<SectorCounts>, names: seq<string>, k: nat)
    requires UniqueNames(bd) && 1 < |names| <= |bd| && k < |names| - 1
    requires names[|names| - 1] == bd[|names| - 1].name
    requires ReduceTop(bd, names[..|names| - 1]) == bd[k].name
    ensures ReduceTop(bd, names) == if bd[k].total > bd[|names| - 1].total then bd[k].name else names[|names| - 1]
  {
    FindUnique(bd, k);
    FindUnique(bd, |names| - 1);
  }

  /** On a non-empty breakdown the top sector is the last one of maximal
      total: ties go to the later sector, since the comparison is strict. */
  lemma TopSectorIsLastMaximum(stats: Option<FeedbackStats>)
    requires stats.Some? && stats.value.sectorBreakdown != []
    requires UniqueNames(stats.value.sectorBreakdown)
    ensures exists k :: IsLastMaximum(stats.value.sectorBreakdown, k)
                        && TopSector(stats) == Some(stats.value.sectorBreakdown[k].name)
  {
    var bd := stats.value.sectorBreakdown;
    ReduceIsTopIndex(bd, Names(bd));
    TopIndexIsLastMaximum(bd, |bd|);
    var k := TopIndex(bd, |bd|);
    assert IsLastMaximum(bd, k) && TopSector(stats) == Some(bd[k].name);
  }

  /** Only one position can be the last maximum. */
  lemma LastMaximumUnique(bd: seq<SectorCounts>, k1: int, k2: int)
    requires IsLastMaximum(bd, k1) && IsLastMaximum(bd, k2)
    ensures k1 == k2
  {
    assert bd[k1].total == bd[k2].total;
  }
}
