/**
  The fulfillment metrics of dashboardtes.py: delivered orders with every
  needed timestamp form the analysis set; each row gets its customer delay,
  on-time flag and seller dispatch lateness; the dashboard reports on-time
  rates, the mean delay of late orders, monthly and per-state rates,
  histograms of lateness in 5-day bins and the categories most often late.
*/
module Fulfillment {
  import opened Optional
  import opened Tally
  import opened Durations

  /** The columns of a row of the merged order/item/customer table that the analysis reads. */
  datatype Order = Order(
    status: string,
    purchase: Option<int>,
    approved: Option<int>,
    carrierDate: Option<int>,
    delivered: Option<int>,
    estimated: Option<int>,
    shippingLimit: Option<int>,
    category: Option<string>,
    state: Option<string>)

  /** `order_status == 'delivered'` and none of the seven required fields is missing. */
  predicate InAnalysis(o: Order) {
    && o.status == "delivered"
    && o.purchase.Some? && o.approved.Some? && o.carrierDate.Some? && o.delivered.Some?
    && o.estimated.Some? && o.shippingLimit.Some? && o.category.Some?
  }

  /** `df_analysis`: exactly the delivered, complete rows, each as often as it occurs. */
  function AnalysisSet(orders: seq<Order>): (rows: seq<Order>)
    ensures forall i :: 0 <= i < |rows| ==> InAnalysis(rows[i]) && rows[i] in orders
    ensures forall o :: o in orders && InAnalysis(o) ==> o in rows
    ensures forall o {:trigger Count(rows, o)} :: Count(rows, o) == if InAnalysis(o) then Count(orders, o) else 0
  {
    var rows := Filter(orders, InAnalysis);
    forall o | o in orders && InAnalysis(o) ensures o in rows {
      assert Count(rows, o) == Count(orders, o);
    }
    rows
  }

  // ---------------------------------------------------------------------------
  // Per-row columns
  // ---------------------------------------------------------------------------

  /** `days_late`: the signed delay of the delivery against the estimate, in days. */
  function DaysLate(o: Order): (d: real)
    requires o.delivered.Some? && o.estimated.Some?
    ensures d > 0.0 <==> o.delivered.value > o.estimated.value
    ensures d == 0.0 <==> o.delivered.value == o.estimated.value
    ensures d * 86400.0 == (o.delivered.value - o.estimated.value) as real
  {
    DaysScaleBack(o.delivered.value - o.estimated.value);
    Days(o.delivered.value - o.estimated.value)
  }

  /** `is_on_time = days_late <= 0`: delivery at the estimated time counts as on time. */
  function IsOnTime(o: Order): (onTime: bool)
    requires o.delivered.Some? && o.estimated.Some?
    ensures onTime <==> o.delivered.value <= o.estimated.value
  {
    DaysLate(o) <= 0.0
  }

  /** `seller_dispatch_days_late`: the delay of the hand-over to the carrier against the shipping limit, in days. */
  function SellerDispatchDaysLate(o: Order): (d: real)
    requires o.carrierDate.Some? && o.shippingLimit.Some?
    ensures d > 0.0 <==> o.carrierDate.value > o.shippingLimit.value
    ensures d * 86400.0 == (o.carrierDate.value - o.shippingLimit.value) as real
  {
    DaysScaleBack(o.carrierDate.value - o.shippingLimit.value);
    Days(o.carrierDate.value - o.shippingLimit.value)
  }

  /**
    `seller_dispatched_on_time`, a comparison of the two dates, agrees with
    the dispatch delay: on time exactly when that delay is not positive.
  */
  function SellerDispatchedOnTime(o: Order): (onTime: bool)
    requires o.carrierDate.Some? && o.shippingLimit.Some?
    ensures onTime <==> SellerDispatchDaysLate(o) <= 0.0
  {
    o.carrierDate.value <= o.shippingLimit.value
  }

  // ---------------------------------------------------------------------------
  // Lateness bins
  // ---------------------------------------------------------------------------

  /**
    `pd.cut(days, bins=[0, w, 2w, ..., n*w, inf], right=False)`: bin `k < n`
    holds `[k*w, (k+1)*w)`, bin `n` holds everything from `n*w` on, and a
    negative value falls in no bin (NaN).
  */
  function LatenessBin(days: real, width: nat, n: nat): (b: Option<nat>)
    requires width > 0
    ensures b.None? <==> days < 0.0
    ensures b.Some? ==> b.value <= n
    ensures b.Some? && b.value < n ==> (b.value * width) as real <= days < ((b.value + 1) * width) as real
    ensures b == Some(n) <==> days >= (n * width) as real
  {
    if days < 0.0 then None
    else
      var k := BinFrom(days, width, n, 0);
      assert k < n ==> (k + 1) * width <= n * width;
      Some(k)
  }

  /** The first bin from `k` on whose upper edge lies above `days`, or the overflow bin `n`. */
  function BinFrom(days: real, width: nat, n: nat, k: nat): (b: nat)
    requires width > 0 && k <= n && days >= (k * width) as real
    ensures k <= b <= n
    ensures b < n ==> (b * width) as real <= days < ((b + 1) * width) as real
    ensures b == n ==> days >= (n * width) as real
    decreases n - k
  {
    if k == n then n
    else if days < ((k + 1) * width) as real then k
    else BinFrom(days, width, n, k + 1)
  }

  function Digit(d: nat): char
    requires d < 10
  {
    "0123456789"[d]
  }

  /** The decimal numeral of `n`, as f-strings print it. */
  function Decimal(n: nat): (s: string)
    ensures |s| > 0 && forall i :: 0 <= i < |s| ==> '0' <= s[i] <= '9'
  {
    if n < 10 then [Digit(n)] else Decimal(n / 10) + [Digit(n % 10)]
  }

  /** `f"{i} - {i+w}"` for the bounded bins, and `"<n*w>+"` for the last one. */
  function BinLabel(k: nat, width: nat, n: nat): (s: string)
    requires k <= n
    ensures |s| > 0 && (s[|s| - 1] == '+' <==> k == n)
  {
    if k < n then Decimal(k * width) + " - " + Decimal(k * width + width)
    else Decimal(n * width) + "+"
  }

  function Bins(values: seq<real>, width: nat, n: nat): (bins: seq<Option<nat>>)
    requires width > 0
    ensures |bins| == |values| && forall i :: 0 <= i < |values| ==> bins[i] == LatenessBin(values[i], width, n)
  {
    seq(|values|, i requires 0 <= i < |values| => LatenessBin(values[i], width, n))
  }

  function BinKeys(n: nat): (keys: seq<Option<nat>>)
    ensures |keys| == n + 1 && Distinct(keys)
    ensures forall k :: 0 <= k <= n ==> keys[k] == Some(k)
  {
    seq(n + 1, k requires 0 <= k <= n => Some(k))
  }

  /**
    `value_counts().sort_index()` of the binned values: every bin in order,
    with its label and the number of values that fall in it.
  */
  function Histogram(values: seq<real>, width: nat, n: nat): (hist: seq<(string, nat)>)
    requires width > 0
    ensures |hist| == n + 1
    ensures forall k :: 0 <= k <= n ==> hist[k].0 == BinLabel(k, width, n) && hist[k].1 == Count(Bins(values, width, n), Some(k))
  {
    seq(n + 1, k requires 0 <= k <= n => (BinLabel(k, width, n), Count(Bins(values, width, n), Some(k))))
  }

  /** When no value is negative, each lands in exactly one bin: the bin counts add up to the number of values. */
  lemma HistogramCoversAll(values: seq<real>, width: nat, n: nat)
    requires width > 0
    requires forall i :: 0 <= i < |values| ==> values[i] >= 0.0
    ensures Total(Histogram(values, width, n)) == |values|
  {
    var bins := Bins(values, width, n);
    var keys := BinKeys(n);
    forall b | b in bins ensures b in keys {
      var i :| 0 <= i < |bins| && bins[i] == b;
      assert keys[b.value] == b;
    }
    CountsPartition(bins, keys);
    TotalOfSameCounts(Histogram(values, width, n), Counts(bins, keys));
  }

  const CustomerBinWidth: nat := 5
  const CustomerBinCount: nat := 12
  const SellerBinWidth: nat := 5
  const SellerBinCount: nat := 4

  /** The last bins are labelled "60+" for customers and "20+" for sellers. */
  lemma OverflowLabels()
    ensures BinLabel(CustomerBinCount, CustomerBinWidth, CustomerBinCount) == "60+"
    ensures BinLabel(SellerBinCount, SellerBinWidth, SellerBinCount) == "20+"
    ensures BinLabel(0, CustomerBinWidth, CustomerBinCount) == "0 - 5"
  {
  }

  // ---------------------------------------------------------------------------
  // The analysis frame
  // ---------------------------------------------------------------------------

  function States(rows: seq<Order>): (states: seq<Option<string>>)
    ensures |states| == |rows| && forall i :: 0 <= i < |rows| ==> states[i] == rows[i].state
  {
    seq(|rows|, i requires 0 <= i < |rows| => rows[i].state)
  }

  function Categories(rows: seq<Order>): (cats: seq<Option<string>>)
    ensures |cats| == |rows| && forall i :: 0 <= i < |rows| ==> cats[i] == rows[i].category
  {
    seq(|rows|, i requires 0 <= i < |rows| => rows[i].category)
  }

  /** Every row is in the analysis set and each derived column agrees with its row. */
  predicate Agree(rows: seq<Order>, daysLate: seq<real>, isOnTime: seq<bool>, sellerOnTime: seq<bool>, sellerDaysLate: seq<real>) {
    && |daysLate| == |rows| && |isOnTime| == |rows| && |sellerOnTime| == |rows| && |sellerDaysLate| == |rows|
    && forall i :: 0 <= i < |rows| ==>
      && InAnalysis(rows[i])
      && daysLate[i] == DaysLate(rows[i])
      && isOnTime[i] == IsOnTime(rows[i])
      && sellerOnTime[i] == SellerDispatchedOnTime(rows[i])
      && sellerDaysLate[i] == SellerDispatchDaysLate(rows[i])
  }

  /** Keeping the same rows of every column keeps the columns in agreement. */
  lemma SelectionKeepsAgreement(mask: seq<bool>, rows: seq<Order>, daysLate: seq<real>, isOnTime: seq<bool>, sellerOnTime: seq<bool>, sellerDaysLate: seq<real>)
    requires |mask| == |rows| && Agree(rows, daysLate, isOnTime, sellerOnTime, sellerDaysLate)
    ensures Agree(Select(mask, rows, true), Select(mask, daysLate, true), Select(mask, isOnTime, true),
                  Select(mask, sellerOnTime, true), Select(mask, sellerDaysLate, true))
  {
    var ps := Positions(mask, true);
    SelectAt(mask, rows, true);
    SelectAt(mask, daysLate, true);
    SelectAt(mask, isOnTime, true);
    SelectAt(mask, sellerOnTime, true);
    SelectAt(mask, sellerDaysLate, true);
    var rs := Select(mask, rows, true);
    forall j | 0 <= j < |rs|
      ensures InAnalysis(rs[j]) && Select(mask, daysLate, true)[j] == DaysLate(rs[j])
      ensures Select(mask, isOnTime, true)[j] == IsOnTime(rs[j])
      ensures Select(mask, sellerOnTime, true)[j] == SellerDispatchedOnTime(rs[j])
      ensures Select(mask, sellerDaysLate, true)[j] == SellerDispatchDaysLate(rs[j])
    {
      assert rs[j] == rows[ps[j]];
    }
  }

  /** `df_analysis`, whose columns are added in place. */
  class AnalysisFrame {
    var rows: seq<Order>
    var daysLate: seq<real>
    var isOnTime: seq<bool>
    var sellerOnTime: seq<bool>
    var sellerDaysLate: seq<real>
    var month: seq<int>

    /**
      Every row is in the analysis set and each derived column agrees with
      its row. This holds once `AddDeliveryColumns` has added the columns,
      not on a frame fresh from the constructor.
    */
    predicate ColumnsAgree()
      reads this
    {
      Agree(rows, daysLate, isOnTime, sellerOnTime, sellerDaysLate)
    }

    /** The filtered table, before any column is derived. */
    constructor (orders: seq<Order>)
      ensures rows == AnalysisSet(orders)
      ensures daysLate == [] && isOnTime == [] && sellerOnTime == [] && sellerDaysLate == [] && month == []
    {
      rows := AnalysisSet(orders);
      daysLate, isOnTime, sellerOnTime, sellerDaysLate, month := [], [], [], [], [];
    }

    /** `days_late`, `is_on_time`, `seller_dispatched_on_time` and `seller_dispatch_days_late`. */
    method AddDeliveryColumns()
      requires forall i :: 0 <= i < |rows| ==> InAnalysis(rows[i])
      modifies this
      ensures ColumnsAgree()
      ensures rows == old(rows) && month == old(month)
    {
      var rs := rows;
      daysLate := seq(|rs|, i requires 0 <= i < |rs| && InAnalysis(rs[i]) => DaysLate(rs[i]));
      isOnTime := seq(|rs|, i requires 0 <= i < |rs| && InAnalysis(rs[i]) => IsOnTime(rs[i]));
      sellerOnTime := seq(|rs|, i requires 0 <= i < |rs| && InAnalysis(rs[i]) => SellerDispatchedOnTime(rs[i]));
      sellerDaysLate := seq(|rs|, i requires 0 <= i < |rs| && InAnalysis(rs[i]) => SellerDispatchDaysLate(rs[i]));
    }

    /** `month`: the purchase month, `monthOf` standing for `to_period('M').to_timestamp()`. */
    method AddMonth(monthOf: int -> int)
      requires ColumnsAgree()
      modifies this
      ensures ColumnsAgree()
      ensures rows == old(rows) && daysLate == old(daysLate) && isOnTime == old(isOnTime)
      ensures sellerOnTime == old(sellerOnTime) && sellerDaysLate == old(sellerDaysLate)
      ensures |month| == |rows| && forall i :: 0 <= i < |rows| ==> month[i] == monthOf(rows[i].purchase.value)
    {
      var rs := rows;
      month := seq(|rs|, i requires 0 <= i < |rs| && rs[i].purchase.Some? => monthOf(rs[i].purchase.value));
    }

    /** `df = df[mask]`: the rows the mask keeps, with all their columns. */
    method Restrict(mask: seq<bool>)
      requires ColumnsAgree() && |mask| == |rows| && |month| == |rows|
      modifies this
      ensures ColumnsAgree()
      ensures rows == Select(mask, old(rows), true) && month == Select(mask, old(month), true)
      ensures |rows| == Count(mask, true) && |month| == |rows|
    {
      var rs, dl, ot, so, sd, mo := rows, daysLate, isOnTime, sellerOnTime, sellerDaysLate, month;
      rows, month := Select(mask, rs, true), Select(mask, mo, true);
      daysLate, isOnTime := Select(mask, dl, true), Select(mask, ot, true);
      sellerOnTime, sellerDaysLate := Select(mask, so, true), Select(mask, sd, true);
      SelectionKeepsAgreement(mask, rs, dl, ot, so, sd);
    }

    /** `is_on_time.mean() * 100`: the percentage of rows delivered on or before the estimate. */
    method OnTimeRate() returns (rate: Option<real>)
      requires ColumnsAgree()
      ensures rate.None? <==> rows == []
      ensures rate.Some? ==> 0.0 <= rate.value <= 100.0
      ensures rate == PercentTrue(isOnTime)
    {
      rate := PercentTrue(isOnTime);
    }

    /** `seller_dispatched_on_time.mean() * 100`: the percentage of rows handed over by the shipping limit. */
    method SellerDispatchRate() returns (rate: Option<real>)
      requires ColumnsAgree()
      ensures rate.None? <==> rows == []
      ensures rate.Some? ==> 0.0 <= rate.value <= 100.0
      ensures rate == PercentTrue(sellerOnTime)
    {
      rate := PercentTrue(sellerOnTime);
    }

    /**
      `df[~is_on_time]['days_late'].mean()`: the mean delay over the late
      rows only, missing when no row is late and positive otherwise.
    */
    method AverageDaysLate() returns (avg: Option<real>)
      requires ColumnsAgree()
      ensures avg.None? <==> forall i :: 0 <= i < |rows| ==> isOnTime[i]
      ensures avg.Some? ==> avg.value > 0.0
      ensures avg == Mean(Select(isOnTime, daysLate, false))
    {
      var late := Select(isOnTime, daysLate, false);
      SelectAll(isOnTime, daysLate, false, d => d > 0.0);
      assert forall i :: 0 <= i < |late| ==> late[i] in late;
      avg := Mean(late);
    }

    /**
      `groupby('month')` of both flags, `* 100`: one row per month, in order
      of first occurrence, with both percentages; every row is in exactly
      one month.
    */
    method MonthlyPerformance() returns (monthly: seq<(int, real, real)>)
      requires ColumnsAgree() && |month| == |rows|
      ensures |monthly| == |Unique(month)|
      ensures forall i :: 0 <= i < |monthly| ==>
        && monthly[i].0 == Unique(month)[i]
        && 0.0 <= monthly[i].1 <= 100.0 && 0.0 <= monthly[i].2 <= 100.0
        && PercentTrue(Select(month, isOnTime, monthly[i].0)) == Some(monthly[i].1)
        && PercentTrue(Select(month, sellerOnTime, monthly[i].0)) == Some(monthly[i].2)
      ensures Total(ValueCounts(month)) == |rows|
    {
      var otd := GroupedPercent(month, isOnTime);
      var seller := GroupedPercent(month, sellerOnTime);
      monthly := seq(|otd|, i requires 0 <= i < |otd| => (otd[i].0, otd[i].1, seller[i].1));
      ValueCountsTotal(month);
    }

    /**
      `groupby('customer_state')[flag].mean().mul(100)` for the chosen map
      metric: one row per state that occurs, each once, with the percentage
      of its rows that have the flag; rows without a state are left out and
      every other row is in exactly one state.
    */
    method StateRates(customerMetric: bool) returns (byState: seq<(string, real)>)
      requires ColumnsAgree()
      ensures var flags := if customerMetric then isOnTime else sellerOnTime;
        && (forall i :: 0 <= i < |byState| ==> Some(byState[i].0) in States(rows))
        && (forall i, j :: 0 <= i < j < |byState| ==> byState[i].0 != byState[j].0)
        && (forall i :: 0 <= i < |rows| && rows[i].state.Some? ==>
             exists j :: 0 <= j < |byState| && byState[j].0 == rows[i].state.value)
        && (forall i :: 0 <= i < |byState| ==>
             && 0.0 <= byState[i].1 <= 100.0
             && PercentTrue(Select(States(rows), flags, Some(byState[i].0))) == Some(byState[i].1))
      ensures Total(ValueCounts(Present(States(rows)))) == |rows| - Count(States(rows), None)
    {
      byState := GroupedKnownPercent(States(rows), if customerMetric then isOnTime else sellerOnTime);
      ValueCountsTotal(Present(States(rows)));
    }

    /**
      The customer lateness histogram: nothing when no row is late;
      otherwise the late rows in 5-day bins up to "60+", the counts adding
      up to the number of late rows.
    */
    method CustomerLatenessHistogram() returns (hist: Option<seq<(string, nat)>>)
      requires ColumnsAgree()
      ensures hist.None? <==> forall i :: 0 <= i < |rows| ==> isOnTime[i]
      ensures hist.Some? ==> hist.value == Histogram(Select(isOnTime, daysLate, false), CustomerBinWidth, CustomerBinCount)
      ensures hist.Some? ==> |hist.value| == 13 && Total(hist.value) == Count(isOnTime, false)
    {
      var late := Select(isOnTime, daysLate, false);
      if late == [] {
        hist := None;
      } else {
        SelectAll(isOnTime, daysLate, false, d => d > 0.0);
        assert forall i :: 0 <= i < |late| ==> late[i] in late;
        HistogramCoversAll(late, CustomerBinWidth, CustomerBinCount);
        hist := Some(Histogram(late, CustomerBinWidth, CustomerBinCount));
      }
    }

    /**
      The seller dispatch histogram: nothing when every row was dispatched
      on time; otherwise the late dispatches in 5-day bins up to "20+", the
      counts adding up to the number of late dispatches.
    */
    method SellerLatenessHistogram() returns (hist: Option<seq<(string, nat)>>)
      requires ColumnsAgree()
      ensures hist.None? <==> forall i :: 0 <= i < |rows| ==> sellerOnTime[i]
      ensures hist.Some? ==> hist.value == Histogram(Select(sellerOnTime, sellerDaysLate, false), SellerBinWidth, SellerBinCount)
      ensures hist.Some? ==> |hist.value| == 5 && Total(hist.value) == Count(sellerOnTime, false)
    {
      var late := Select(sellerOnTime, sellerDaysLate, false);
      if late == [] {
        hist := None;
      } else {
        SelectAll(sellerOnTime, sellerDaysLate, false, d => d > 0.0);
        assert forall i :: 0 <= i < |late| ==> late[i] in late;
        HistogramCoversAll(late, SellerBinWidth, SellerBinCount);
        hist := Some(Histogram(late, SellerBinWidth, SellerBinCount));
      }
    }

    /**
      `df[~is_on_time]['product_category_name_english'].value_counts().nlargest(5)`:
      nothing when no row is late; otherwise at most five categories, each
      with its number of late rows, by that number, none counting fewer than
      a category left out.
    */
    method TopLateCategories() returns (top: Option<seq<(Option<string>, nat)>>)
      requires ColumnsAgree()
      ensures top.None? <==> forall i :: 0 <= i < |rows| ==> isOnTime[i]
      ensures top.Some? ==>
        var late := Select(isOnTime, Categories(rows), false);
        var counts := ValueCounts(late);
        && |top.value| == (if 5 < |counts| then 5 else |counts|)
        && (forall i :: 0 <= i < |top.value| ==> top.value[i].0 in late && top.value[i].1 == Count(late, top.value[i].0))
        && multiset(top.value) <= multiset(counts)
        && NonIncreasing(top.value)
        && AtLeast(top.value, multiset(counts) - multiset(top.value))
    {
      var late := Select(isOnTime, Categories(rows), false);
      if late == [] {
        top := None;
      } else {
        var counts := ValueCounts(late);
        var t := TopK(counts, 5);
        forall i | 0 <= i < |t| ensures t[i].0 in late && t[i].1 == Count(late, t[i].0) {
          assert t[i] in multiset(t);
          assert t[i] in counts;
        }
        top := Some(t);
      }
    }
  }
}
