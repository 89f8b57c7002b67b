/**
 * The check-in aggregation of a store: the four category averages with their
 * neutral default, the weighted check-in score, and the per-day series of
 * cumulative averages that the charts of a store draw.
 */
module CheckIn {

  /** Day of the week as the submission date reports it: 0 (Sunday) to 6 (Saturday). */
  type Weekday = d: int | 0 <= d < 7

  /** An opaque submission time; a data point carries it unchanged. */
  type Timestamp = int

  /** One crowd-submitted check-in: four category ratings and when it was submitted. */
  datatype Rating = Rating(busy: real, line: real, hygiene: real, mask: real,
                           weekday: Weekday, date: Timestamp)

  datatype Category = Busy | Line | Hygiene | Mask

  /** One point of a chart: a (cumulative) average and the date it is drawn at. */
  datatype DataPoint = DataPoint(value: real, date: Timestamp)

  /** The value every category takes when a store has no check-ins. */
  const DefaultRating: real := 5.0

  const BusyWeight: real := 0.25
  const LineWeight: real := 0.25
  const HygieneWeight: real := 0.25
  const MaskWeight: real := 0.25

  /** The keys of the map that compiles the rating days. */
  const SeriesKeys: set<string> := {"mask", "hygiene", "line", "busy"}

  function Value(r: Rating, c: Category): real {
    match c
    case Busy => r.busy
    case Line => r.line
    case Hygiene => r.hygiene
    case Mask => r.mask
  }

  /** The key under which the series of category `c` is stored. */
  function Key(c: Category): (k: string)
    ensures k in SeriesKeys
  {
    match c
    case Busy => "busy"
    case Line => "line"
    case Hygiene => "hygiene"
    case Mask => "mask"
  }

  // ---------------------------------------------------------------------------
  // Specification: averages and the composite score
  // ---------------------------------------------------------------------------

  /** The sum of category `c` over the records, accumulated front to back. */
  function Sum(rs: seq<Rating>, c: Category): real
    decreases |rs|
  {
    if rs == [] then 0.0 else Sum(rs[..|rs| - 1], c) + Value(rs[|rs| - 1], c)
  }

  /** The average of category `c`, or the neutral default when there are no records. */
  function Average(rs: seq<Rating>, c: Category): real {
    if |rs| == 0 then DefaultRating else Sum(rs, c) / (|rs| as real)
  }

  /** The check-in score: the four averages combined with their fixed weights. */
  function CompositeScore(rs: seq<Rating>): real {
    BusyWeight * Average(rs, Busy) + LineWeight * Average(rs, Line)
      + HygieneWeight * Average(rs, Hygiene) + MaskWeight * Average(rs, Mask)
  }

  lemma SumStep(rs: seq<Rating>, i: nat, c: Category)
    requires i < |rs|
    ensures Sum(rs[..i + 1], c) == Sum(rs[..i], c) + Value(rs[i], c)
  {
    assert rs[..i + 1][..i] == rs[..i];
  }

  /** The sum of category `c` over the first n records, as a loop accumulates it index by index. */
  function RunningSum(rs: seq<Rating>, c: Category, n: nat): real
    requires n <= |rs|
  {
    if n == 0 then 0.0 else RunningSum(rs, c, n - 1) + Value(rs[n - 1], c)
  }

  /** The running sum over n records is the sum of the prefix of length n. */
  lemma {:induction false} RunningSumIsSum(rs: seq<Rating>, c: Category, n: nat)
    requires n <= |rs|
    ensures RunningSum(rs, c, n) == Sum(rs[..n], c)
  {
    if n > 0 {
      RunningSumIsSum(rs, c, n - 1);
      assert rs[..n][..n - 1] == rs[..n - 1];
    }
  }

  /** A category whose every record has value k sums to n times k. */
  lemma {:induction false} SumUniform(rs: seq<Rating>, c: Category, k: real)
    requires forall i :: 0 <= i < |rs| ==> Value(rs[i], c) == k
    ensures Sum(rs, c) == (|rs| as real) * k
  {
    if rs != [] {
      var init := rs[..|rs| - 1];
      assert forall i :: 0 <= i < |init| ==> Value(init[i], c) == k by {
        forall i | 0 <= i < |init| ensures Value(init[i], c) == k {
          assert init[i] == rs[i];
        }
      }
      SumUniform(init, c, k);
    }
  }

  /** With no check-ins every average is the neutral 5.0 and so is the score. */
  lemma NoCheckInsScore()
    ensures forall c :: Average([], c) == 5.0
    ensures CompositeScore([]) == 5.0
  {
  }

  /** Four averages that are all k give a check-in score of exactly k. */
  lemma ScoreOfEqualAverages(rs: seq<Rating>, k: real)
    requires Average(rs, Busy) == k && Average(rs, Line) == k
    requires Average(rs, Hygiene) == k && Average(rs, Mask) == k
    ensures CompositeScore(rs) == k
  {
  }

  /** Check-ins that all rate every category k give averages of k and a score of k. */
  lemma {:induction false} UniformRatingsScore(rs: seq<Rating>, k: real)
    requires |rs| > 0
    requires forall i :: 0 <= i < |rs| ==>
      rs[i].busy == k && rs[i].line == k && rs[i].hygiene == k && rs[i].mask == k
    ensures forall c :: Average(rs, c) == k
    ensures CompositeScore(rs) == k
  {
    forall c ensures Average(rs, c) == k {
      SumUniform(rs, c, k);
    }
  }

  // ---------------------------------------------------------------------------
  // Specification: the rating-day series
  // ---------------------------------------------------------------------------

  /** Records i and i + 1 fall on different days of the week. */
  predicate IsBoundary(rs: seq<Rating>, i: int) {
    0 <= i && i + 1 < |rs| && rs[i].weekday != rs[i + 1].weekday
  }

  /** The boundaries among the first k adjacent pairs. */
  function BoundarySet(rs: seq<Rating>, k: nat): set<nat> {
    set j: nat | j < k && IsBoundary(rs, j)
  }

  /** The point emitted at record i: the average of records 0..i, dated at record i. */
  function PointAt(rs: seq<Rating>, c: Category, i: nat): DataPoint
    requires i < |rs|
  {
    DataPoint(Sum(rs[..i + 1], c) / ((i + 1) as real), rs[i].date)
  }

  /** The points emitted while walking the first k adjacent pairs. */
  function BoundaryPoints(rs: seq<Rating>, c: Category, k: nat): seq<DataPoint>
    requires k == 0 || k < |rs|
  {
    if k == 0 then []
    else BoundaryPoints(rs, c, k - 1) + (if IsBoundary(rs, k - 1) then [PointAt(rs, c, k - 1)] else [])
  }

  /** The indices, in increasing order, of the boundaries among the first k pairs. */
  function BoundaryIndices(rs: seq<Rating>, k: nat): seq<nat>
    requires k == 0 || k < |rs|
  {
    if k == 0 then []
    else BoundaryIndices(rs, k - 1) + (if IsBoundary(rs, k - 1) then [k - 1] else [])
  }

  /** The whole series of a category: one point per boundary, then the closing point. */
  function Series(rs: seq<Rating>, c: Category): seq<DataPoint> {
    if |rs| == 0 then [] else BoundaryPoints(rs, c, |rs| - 1) + [PointAt(rs, c, |rs| - 1)]
  }

  /** The boundary indices are strictly increasing and are exactly the boundaries below k. */
  lemma BoundaryIndicesExact(rs: seq<Rating>, k: nat)
    requires k == 0 || k < |rs|
    ensures forall a, b :: 0 <= a < b < |BoundaryIndices(rs, k)| ==>
      BoundaryIndices(rs, k)[a] < BoundaryIndices(rs, k)[b]
    ensures forall j :: j in BoundaryIndices(rs, k) <==> j in BoundarySet(rs, k)
    ensures |BoundaryIndices(rs, k)| == |BoundarySet(rs, k)|
  {
    BoundaryIndicesSorted(rs, k);
    BoundaryIndicesMembers(rs, k);
    BoundaryCount(rs, k);
  }

  /** Every boundary index below k is a boundary below k. */
  lemma {:induction false} BoundaryIndicesBelow(rs: seq<Rating>, k: nat)
    requires k == 0 || k < |rs|
    ensures forall m :: 0 <= m < |BoundaryIndices(rs, k)| ==>
      BoundaryIndices(rs, k)[m] < k && IsBoundary(rs, BoundaryIndices(rs, k)[m])
  {
    if k > 0 {
      BoundaryIndicesBelow(rs, k - 1);
    }
  }

  lemma {:induction false} BoundaryIndicesSorted(rs: seq<Rating>, k: nat)
    requires k == 0 || k < |rs|
    ensures forall a, b :: 0 <= a < b < |BoundaryIndices(rs, k)| ==>
      BoundaryIndices(rs, k)[a] < BoundaryIndices(rs, k)[b]
  {
    if k > 0 {
      BoundaryIndicesSorted(rs, k - 1);
      BoundaryIndicesBelow(rs, k - 1);
    }
  }

  lemma {:induction false} BoundaryIndicesMembers(rs: seq<Rating>, k: nat)
    requires k == 0 || k < |rs|
    ensures forall j :: j in BoundaryIndices(rs, k) <==> j in BoundarySet(rs, k)
  {
    if k > 0 {
      BoundaryIndicesMembers(rs, k - 1);
      BoundaryIndicesBelow(rs, k - 1);
      var prev := BoundaryIndices(rs, k - 1);
      forall j
        ensures j in BoundaryIndices(rs, k) <==> j in BoundarySet(rs, k)
      {
        if IsBoundary(rs, k - 1) {
          assert j in BoundaryIndices(rs, k) <==> j in prev || j == k - 1;
        } else {
          assert BoundaryIndices(rs, k) == prev;
        }
      }
    }
  }

  lemma {:induction false} BoundaryCount(rs: seq<Rating>, k: nat)
    requires k == 0 || k < |rs|
    ensures |BoundaryIndices(rs, k)| == |BoundarySet(rs, k)|
  {
    if k == 0 {
      assert BoundarySet(rs, k) == {};
    } else {
      BoundaryCount(rs, k - 1);
      if IsBoundary(rs, k - 1) {
        assert BoundarySet(rs, k) == BoundarySet(rs, k - 1) + {k - 1};
      } else {
        assert BoundarySet(rs, k) == BoundarySet(rs, k - 1);
      }
    }
  }

  /** The m-th emitted point is the cumulative average at the m-th boundary. */
  lemma {:induction false} BoundaryPointsAt(rs: seq<Rating>, c: Category, k: nat)
    requires k == 0 || k < |rs|
    ensures |BoundaryPoints(rs, c, k)| == |BoundaryIndices(rs, k)|
    ensures forall m :: 0 <= m < |BoundaryIndices(rs, k)| ==>
      BoundaryIndices(rs, k)[m] < |rs| &&
      BoundaryPoints(rs, c, k)[m] == PointAt(rs, c, BoundaryIndices(rs, k)[m])
  {
    if k > 0 {
      BoundaryPointsAt(rs, c, k - 1);
      BoundaryIndicesExact(rs, k - 1);
    }
  }

  /**
   * For n >= 1 records, a series has one point per day-of-week boundary plus the
   * closing point; the boundary points are the cumulative averages at those
   * boundaries, in order, and the closing point is the average over all records,
   * dated at the last record.
   */
  lemma SeriesShape(rs: seq<Rating>, c: Category)
    requires |rs| > 0
    ensures |Series(rs, c)| == |BoundarySet(rs, |rs| - 1)| + 1
    ensures |Series(rs, c)| == |BoundaryIndices(rs, |rs| - 1)| + 1
    ensures forall m :: 0 <= m < |Series(rs, c)| - 1 ==>
      BoundaryIndices(rs, |rs| - 1)[m] < |rs| - 1 &&
      IsBoundary(rs, BoundaryIndices(rs, |rs| - 1)[m]) &&
      Series(rs, c)[m] == PointAt(rs, c, BoundaryIndices(rs, |rs| - 1)[m])
    ensures Series(rs, c)[|Series(rs, c)| - 1] == DataPoint(Average(rs, c), rs[|rs| - 1].date)
  {
    var k := |rs| - 1;
    SeriesLength(rs, c);
    BoundaryPointsAt(rs, c, k);
    BoundaryIndicesBelow(rs, k);
    assert Series(rs, c) == BoundaryPoints(rs, c, k) + [PointAt(rs, c, k)];
    SeriesClosingPoint(rs, c);
  }

  lemma SeriesLength(rs: seq<Rating>, c: Category)
    requires |rs| > 0
    ensures |Series(rs, c)| == |BoundaryIndices(rs, |rs| - 1)| + 1
    ensures |Series(rs, c)| == |BoundarySet(rs, |rs| - 1)| + 1
  {
    BoundaryPointsAt(rs, c, |rs| - 1);
    BoundaryCount(rs, |rs| - 1);
  }

  lemma SeriesClosingPoint(rs: seq<Rating>, c: Category)
    requires |rs| > 0
    ensures Series(rs, c)[|Series(rs, c)| - 1] == DataPoint(Average(rs, c), rs[|rs| - 1].date)
  {
    assert rs[..|rs|] == rs;
  }

  /** One step of the walk over adjacent pairs: a point is added exactly at a weekday change. */
  lemma WalkStep(rs: seq<Rating>, c: Category, i: nat, sum: real)
    requires i + 1 < |rs| && sum == RunningSum(rs, c, i + 1)
    ensures BoundaryPoints(rs, c, i + 1) == BoundaryPoints(rs, c, i) +
      (if rs[i].weekday != rs[i + 1].weekday then [DataPoint(sum / (i as real + 1.0), rs[i].date)] else [])
  {
    RunningSumIsSum(rs, c, i + 1);
    assert (i + 1) as real == i as real + 1.0;
  }

  /** The closing step: the points of the walk and the average over all records at the last date. */
  lemma WalkEnd(rs: seq<Rating>, c: Category, sum: real)
    requires |rs| > 0 && sum == RunningSum(rs, c, |rs|)
    ensures Series(rs, c) ==
      BoundaryPoints(rs, c, |rs| - 1) + [DataPoint(sum / ((|rs| - 1) as real + 1.0), rs[|rs| - 1].date)]
  {
    RunningSumIsSum(rs, c, |rs|);
  }

  /** The series of two categories have the same length and the same dates, point by point. */
  lemma SeriesAligned(rs: seq<Rating>, c1: Category, c2: Category)
    ensures |Series(rs, c1)| == |Series(rs, c2)|
    ensures forall m :: 0 <= m < |Series(rs, c1)| ==> Series(rs, c1)[m].date == Series(rs, c2)[m].date
  {
    if |rs| > 0 {
      var k := |rs| - 1;
      BoundaryPointsAt(rs, c1, k);
      BoundaryPointsAt(rs, c2, k);
    }
  }

  /** No records, no points. */
  lemma EmptySeries(c: Category)
    ensures Series([], c) == []
  {
  }

  /** A single check-in yields exactly one point, its own value on its own date. */
  lemma SingleRecordSeries(r: Rating, c: Category)
    ensures Series([r], c) == [DataPoint(Value(r, c), r.date)]
  {
    assert [r][..1] == [r];
    assert [r][..0] == [];
    assert Sum([r], c) == Value(r, c);
    assert PointAt([r], c, 0) == DataPoint(Value(r, c), r.date);
  }

  /**
   * Only the day of the week is compared: records that all share a weekday give
   * only the closing point, whatever their dates (two Mondays weeks apart merge).
   */
  lemma {:induction false} SameWeekdayOnePoint(rs: seq<Rating>, c: Category)
    requires |rs| > 0
    requires forall i :: 0 <= i < |rs| ==> rs[i].weekday == rs[0].weekday
    ensures Series(rs, c) == [DataPoint(Average(rs, c), rs[|rs| - 1].date)]
  {
    SeriesShape(rs, c);
    assert BoundarySet(rs, |rs| - 1) == {} by {
      forall j: nat | j < |rs| - 1 ensures !IsBoundary(rs, j) {
        assert rs[j].weekday == rs[0].weekday == rs[j + 1].weekday;
      }
    }
  }

  /**
   * Monday, Monday, Tuesday: one point at the Monday-to-Tuesday change (the
   * average of the first two) and the closing point (the average of all three).
   */
  lemma MondayMondayTuesday(a: Rating, b: Rating, d: Rating, c: Category)
    requires a.weekday == b.weekday && b.weekday != d.weekday
    ensures Series([a, b, d], c) ==
      [DataPoint((Value(a, c) + Value(b, c)) / 2.0, b.date),
       DataPoint((Value(a, c) + Value(b, c) + Value(d, c)) / 3.0, d.date)]
  {
    var rs := [a, b, d];
    assert rs[..1] == [a] && rs[..1][..0] == [];
    assert rs[..2] == [a, b] && rs[..2][..1] == [a];
    assert rs[..3] == rs && rs[..3][..2] == [a, b];
    assert Sum(rs[..1], c) == Value(a, c);
    assert Sum(rs[..2], c) == Value(a, c) + Value(b, c);
    assert Sum(rs, c) == Value(a, c) + Value(b, c) + Value(d, c);
    assert BoundaryPoints(rs, c, 1) == [];
    assert BoundaryPoints(rs, c, 2) == [PointAt(rs, c, 1)];
  }

  /**
   * Sums are never reset: on Monday, Tuesday, Wednesday the Tuesday point is
   * the average of Monday and Tuesday, not of Tuesday alone.
   */
  lemma CumulativeNotPerDay(a: Rating, b: Rating, d: Rating, c: Category)
    requires a.weekday != b.weekday && b.weekday != d.weekday
    ensures |Series([a, b, d], c)| == 3
    ensures Series([a, b, d], c)[1] == DataPoint((Value(a, c) + Value(b, c)) / 2.0, b.date)
  {
    var rs := [a, b, d];
    assert rs[..1] == [a] && rs[..1][..0] == [];
    assert rs[..2] == [a, b] && rs[..2][..1] == [a];
    assert Sum(rs[..1], c) == Value(a, c);
    assert Sum(rs[..2], c) == Value(a, c) + Value(b, c);
    assert BoundaryPoints(rs, c, 1) == [PointAt(rs, c, 0)];
    assert BoundaryPoints(rs, c, 2) == [PointAt(rs, c, 0), PointAt(rs, c, 1)];
  }

  /** When every record rates category c as k, every point of its series has value k. */
  lemma UniformSeries(rs: seq<Rating>, c: Category, k: real)
    requires forall i :: 0 <= i < |rs| ==> Value(rs[i], c) == k
    ensures forall m :: 0 <= m < |Series(rs, c)| ==> Series(rs, c)[m].value == k
  {
    if |rs| > 0 {
      var last := |rs| - 1;
      BoundaryPointsAt(rs, c, last);
      var series := Series(rs, c);
      assert series == BoundaryPoints(rs, c, last) + [PointAt(rs, c, last)];
      forall m | 0 <= m < |series| ensures series[m].value == k {
        if m < |series| - 1 {
          var i := BoundaryIndices(rs, last)[m];
          assert series[m] == BoundaryPoints(rs, c, last)[m] == PointAt(rs, c, i);
          UniformPoint(rs, c, k, i);
        } else {
          UniformPoint(rs, c, k, |rs| - 1);
        }
      }
    }
  }

  lemma UniformPoint(rs: seq<Rating>, c: Category, k: real, i: nat)
    requires i < |rs|
    requires forall j :: 0 <= j < |rs| ==> Value(rs[j], c) == k
    ensures PointAt(rs, c, i).value == k
  {
    var pre := rs[..i + 1];
    assert forall j :: 0 <= j < |pre| ==> Value(pre[j], c) == k by {
      forall j | 0 <= j < |pre| ensures Value(pre[j], c) == k {
        assert pre[j] == rs[j];
      }
    }
    SumUniform(pre, c, k);
    var n := (i + 1) as real;
    assert |pre| as real == n;
    assert Sum(pre, c) == n * k;
    ProductQuotient(n, k);
    assert PointAt(rs, c, i).value == Sum(pre, c) / n == n * k / n;
  }

  /** Dividing n·k by a nonzero n gives back k. */
  lemma ProductQuotient(n: real, k: real)
    requires n != 0.0
    ensures n * k / n == k
  {
  }

  // ---------------------------------------------------------------------------
  // The aggregate object
  // ---------------------------------------------------------------------------

  /** The averaged check-in stats of one store, computed once from its rating records. */
  class CheckInStats {
    var busy: real
    var line: real
    var hygiene: real
    var masks: real
    var checkInCount: nat
    var ratingEntities: seq<Rating>

    /** The fields hold the count and the four averages of the records. */
    ghost predicate Valid()
      reads this
    {
      && checkInCount == |ratingEntities|
      && busy == Average(ratingEntities, Busy)
      && line == Average(ratingEntities, Line)
      && hygiene == Average(ratingEntities, Hygiene)
      && masks == Average(ratingEntities, Mask)
    }

    /** Sums each category over the records and divides by their count, or takes 5.0 each when there are none. */
    constructor (ratings: seq<Rating>)
      ensures Valid() && ratingEntities == ratings && checkInCount == |ratings|
      ensures ratings == [] ==> busy == 5.0 && line == 5.0 && hygiene == 5.0 && masks == 5.0
      ensures ratings != [] ==> busy == Sum(ratings, Busy) / (|ratings| as real)
      ensures ratings != [] ==> line == Sum(ratings, Line) / (|ratings| as real)
      ensures ratings != [] ==> hygiene == Sum(ratings, Hygiene) / (|ratings| as real)
      ensures ratings != [] ==> masks == Sum(ratings, Mask) / (|ratings| as real)
    {
      ratingEntities := ratings;
      checkInCount := |ratings|;
      busy, line, hygiene, masks := 0.0, 0.0, 0.0, 0.0;
      new;
      for i := 0 to |ratings|
        invariant ratingEntities == ratings && checkInCount == |ratings|
        invariant busy == Sum(ratings[..i], Busy) && line == Sum(ratings[..i], Line)
        invariant hygiene == Sum(ratings[..i], Hygiene) && masks == Sum(ratings[..i], Mask)
      {
        SumStep(ratings, i, Busy);
        SumStep(ratings, i, Line);
        SumStep(ratings, i, Hygiene);
        SumStep(ratings, i, Mask);
        var ratingEntity := ratings[i];
        busy := busy + ratingEntity.busy;
        line := line + ratingEntity.line;
        hygiene := hygiene + ratingEntity.hygiene;
        masks := masks + ratingEntity.mask;
      }
      assert ratings[..|ratings|] == ratings;
      if checkInCount != 0 {
        busy := busy / (1.0 * checkInCount as real);
        line := line / (1.0 * checkInCount as real);
        hygiene := hygiene / (1.0 * checkInCount as real);
        masks := masks / (1.0 * checkInCount as real);
      } else {
        busy := 5.0;
        line := 5.0;
        hygiene := 5.0;
        masks := 5.0;
      }
    }

    function GetBusy(): (r: real)
      reads this
      requires Valid()
      ensures r == Average(ratingEntities, Busy)
    {
      busy
    }

    function GetLine(): (r: real)
      reads this
      requires Valid()
      ensures r == Average(ratingEntities, Line)
    {
      line
    }

    function GetHygiene(): (r: real)
      reads this
      requires Valid()
      ensures r == Average(ratingEntities, Hygiene)
    {
      hygiene
    }

    function GetMasks(): (r: real)
      reads this
      requires Valid()
      ensures r == Average(ratingEntities, Mask)
    {
      masks
    }

    function GetCheckInCount(): (n: nat)
      reads this
      requires Valid()
      ensures n == |ratingEntities|
    {
      checkInCount
    }

    /** The weighted check-in score of the store. */
    function GetCheckInScore(): (r: real)
      reads this
      requires Valid()
      ensures r == CompositeScore(ratingEntities)
      ensures ratingEntities == [] ==> r == 5.0
    {
      BusyWeight * busy + LineWeight * line + HygieneWeight * hygiene + MaskWeight * masks
    }

    /**
     * Walks the records in order with running sums per category; at each pair
     * of adjacent records on different days of the week it appends to every
     * category the running average, dated at the earlier record, and after the
     * walk it appends one closing point over all records.
     */
    method CompileRatingDays() returns (ratingDays: map<string, seq<DataPoint>>)
      requires Valid()
      ensures ratingDays.Keys == SeriesKeys
      ensures forall c :: ratingDays[Key(c)] == Series(ratingEntities, c)
      ensures ratingEntities == [] ==> forall c :: ratingDays[Key(c)] == []
    {
      var maskSum, hygieneSum, lineSum, busySum := 0.0, 0.0, 0.0, 0.0;
      ratingDays := map["mask" := [], "hygiene" := [], "line" := [], "busy" := []];
      var ratingNum := 0;
      while ratingNum < checkInCount - 1
        invariant checkInCount == 0 ==> ratingNum == 0
        invariant checkInCount > 0 ==> 0 <= ratingNum <= checkInCount - 1
        invariant busySum == RunningSum(ratingEntities, Busy, ratingNum)
        invariant lineSum == RunningSum(ratingEntities, Line, ratingNum)
        invariant hygieneSum == RunningSum(ratingEntities, Hygiene, ratingNum)
        invariant maskSum == RunningSum(ratingEntities, Mask, ratingNum)
        invariant ratingDays.Keys == SeriesKeys
        invariant ratingDays["busy"] == BoundaryPoints(ratingEntities, Busy, ratingNum)
        invariant ratingDays["line"] == BoundaryPoints(ratingEntities, Line, ratingNum)
        invariant ratingDays["hygiene"] == BoundaryPoints(ratingEntities, Hygiene, ratingNum)
        invariant ratingDays["mask"] == BoundaryPoints(ratingEntities, Mask, ratingNum)
      {
        var ratingEntity := ratingEntities[ratingNum];
        busySum := busySum + ratingEntity.busy;
        lineSum := lineSum + ratingEntity.line;
        hygieneSum := hygieneSum + ratingEntity.hygiene;
        maskSum := maskSum + ratingEntity.mask;

        var nextEntity := ratingEntities[ratingNum + 1];
        var endDay := !(ratingEntity.weekday == nextEntity.weekday);
        WalkStep(ratingEntities, Busy, ratingNum, busySum);
        WalkStep(ratingEntities, Line, ratingNum, lineSum);
        WalkStep(ratingEntities, Hygiene, ratingNum, hygieneSum);
        WalkStep(ratingEntities, Mask, ratingNum, maskSum);
        if endDay {
          var currentDate := ratingEntity.date;
          var maskRatings := ratingDays["mask"] + [DataPoint(maskSum / (ratingNum as real + 1.0), currentDate)];
          var hygieneRatings := ratingDays["hygiene"] + [DataPoint(hygieneSum / (ratingNum as real + 1.0), currentDate)];
          var lineRatings := ratingDays["line"] + [DataPoint(lineSum / (ratingNum as real + 1.0), currentDate)];
          var busyRatings := ratingDays["busy"] + [DataPoint(busySum / (ratingNum as real + 1.0), currentDate)];
          ratingDays := ratingDays["mask" := maskRatings]["hygiene" := hygieneRatings]["line" := lineRatings]["busy" := busyRatings];
        }
        ratingNum := ratingNum + 1;
      }
      if checkInCount != 0 {
        var ratingEntity := ratingEntities[ratingNum];
        busySum := busySum + ratingEntity.busy;
        lineSum := lineSum + ratingEntity.line;
        hygieneSum := hygieneSum + ratingEntity.hygiene;
        maskSum := maskSum + ratingEntity.mask;

        WalkEnd(ratingEntities, Busy, busySum);
        WalkEnd(ratingEntities, Line, lineSum);
        WalkEnd(ratingEntities, Hygiene, hygieneSum);
        WalkEnd(ratingEntities, Mask, maskSum);
        var currentDate := ratingEntity.date;
        var maskRatings := ratingDays["mask"] + [DataPoint(maskSum / (ratingNum as real + 1.0), currentDate)];
        var hygieneRatings := ratingDays["hygiene"] + [DataPoint(hygieneSum / (ratingNum as real + 1.0), currentDate)];
        var lineRatings := ratingDays["line"] + [DataPoint(lineSum / (ratingNum as real + 1.0), currentDate)];
        var busyRatings := ratingDays["busy"] + [DataPoint(busySum / (ratingNum as real + 1.0), currentDate)];
        ratingDays := ratingDays["mask" := maskRatings]["hygiene" := hygieneRatings]["line" := lineRatings]["busy" := busyRatings];
      }
      forall c ensures ratingDays[Key(c)] == Series(ratingEntities, c) {
        match c
        case Busy => assert Key(c) == "busy";
        case Line => assert Key(c) == "line";
        case Hygiene => assert Key(c) == "hygiene";
        case Mask => assert Key(c) == "mask";
      }
    }
  }
}
