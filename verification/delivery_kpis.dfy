/**
  The delivery, lead-conversion and customer-loyalty figures of
  dashboard.py: delivery time and on-time share of delivered orders, the
  MQL-to-deal funnel per lead origin, and the split of customers into
  "Repeat" and "New".
*/
module DeliveryKpis {
  import opened Optional
  import opened Tally
  import opened Durations

  // ---------------------------------------------------------------------------
  // Delivery performance
  // ---------------------------------------------------------------------------

  /** The columns of a row of the orders table that the figures read. */
  datatype Order = Order(
    id: string,
    customer: string,
    purchase: Option<int>,
    delivered: Option<int>,
    estimated: Option<int>)

  predicate HasDeliveryDate(o: Order) {
    o.delivered.Some?
  }

  /**
    `orders.dropna(subset=["order_delivered_customer_date"])`: exactly the
    orders with a delivery date, each as often as it occurs.
  */
  function Delivered(orders: seq<Order>): (rows: seq<Order>)
    ensures forall i :: 0 <= i < |rows| ==> rows[i].delivered.Some? && rows[i] in orders
    ensures forall o :: o in orders && o.delivered.Some? ==> o in rows
    ensures forall o {:trigger Count(rows, o)} :: Count(rows, o) == if o.delivered.Some? then Count(orders, o) else 0
  {
    var rows := Filter(orders, HasDeliveryDate);
    forall o | o in orders && o.delivered.Some? ensures o in rows {
      assert Count(rows, o) == Count(orders, o);
    }
    rows
  }

  /**
    `delivery_time = (delivered - purchase).dt.days`: the whole days
    between purchase and delivery, rounded down; missing with the purchase
    date.
  */
  function DeliveryTime(o: Order): (days: Option<int>)
    requires o.delivered.Some?
    ensures days.Some? <==> o.purchase.Some?
    ensures days.Some? ==>
      days.value * SecondsPerDay <= o.delivered.value - o.purchase.value < (days.value + 1) * SecondsPerDay
  {
    if o.purchase.Some? then Some(WholeDays(o.delivered.value - o.purchase.value)) else None
  }

  /**
    `on_time = delivered <= estimated`: a delivery at the estimated time is
    on time; with no estimate the comparison is false.
  */
  function OnTime(o: Order): (onTime: bool)
    requires o.delivered.Some?
    ensures onTime <==> o.estimated.Some? && o.delivered.value <= o.estimated.value
  {
    match o.estimated
    case None => false
    case Some(e) => o.delivered.value <= e
  }

  function AsReals(xs: seq<int>): (ys: seq<real>)
    ensures |ys| == |xs| && forall i :: 0 <= i < |xs| ==> ys[i] == xs[i] as real
  {
    seq(|xs|, i requires 0 <= i < |xs| => xs[i] as real)
  }

  /** `deliv`, to which `delivery_time` and `on_time` are added in place. */
  class DeliveryFrame {
    var rows: seq<Order>
    var deliveryTime: seq<Option<int>>
    var onTime: seq<bool>

    /**
      Every row has a delivery date and both columns agree with their rows.
      This holds once `AddColumns` has added the columns, not on a frame
      fresh from the constructor.
    */
    predicate ColumnsAgree()
      reads this
    {
      && |deliveryTime| == |rows| && |onTime| == |rows|
      && forall i :: 0 <= i < |rows| ==>
        rows[i].delivered.Some? && deliveryTime[i] == DeliveryTime(rows[i]) && onTime[i] == OnTime(rows[i])
    }

    constructor (orders: seq<Order>)
      ensures rows == Delivered(orders) && deliveryTime == [] && onTime == []
    {
      rows := Delivered(orders);
      deliveryTime, onTime := [], [];
    }

    method AddColumns()
      requires forall i :: 0 <= i < |rows| ==> rows[i].delivered.Some?
      modifies this
      ensures ColumnsAgree() && rows == old(rows)
    {
      var rs := rows;
      deliveryTime := seq(|rs|, i requires 0 <= i < |rs| && rs[i].delivered.Some? => DeliveryTime(rs[i]));
      onTime := seq(|rs|, i requires 0 <= i < |rs| && rs[i].delivered.Some? => OnTime(rs[i]));
    }

    /**
      `delivery_time.mean()`: the mean over every known delivery time, each
      counted as often as it occurs; missing when no row has one.
    */
    method AverageDeliveryTime() returns (avg: Option<real>)
      requires ColumnsAgree()
      ensures avg.None? <==> forall i :: 0 <= i < |rows| ==> rows[i].purchase.None?
      ensures avg == Mean(AsReals(Present(deliveryTime)))
    {
      var known := Present(deliveryTime);
      forall i | 0 <= i < |rows| && rows[i].purchase.Some? ensures known != [] {
        assert Count(known, deliveryTime[i].value) > 0;
      }
      if known != [] {
        assert Some(known[0]) in deliveryTime;
      }
      avg := Mean(AsReals(known));
    }

    /** `on_time.mean() * 100`: the percentage of delivered orders that arrived on time. */
    method OnTimeRate() returns (rate: Option<real>)
      requires ColumnsAgree()
      ensures rate.None? <==> rows == []
      ensures rate.Some? ==> 0.0 <= rate.value <= 100.0
      ensures rate == PercentTrue(onTime)
    {
      rate := PercentTrue(onTime);
    }
  }

  // ---------------------------------------------------------------------------
  // MQL funnel
  // ---------------------------------------------------------------------------

  /** A row of the marketing-qualified leads joined to the closed deals. */
  datatype Lead = Lead(mqlId: string, origin: Option<string>, wonDate: Option<int>)

  /** `leads`, `deals_closed` and `conversion_rate %` of one origin. */
  datatype FunnelRow = FunnelRow(origin: string, leads: nat, dealsClosed: nat, conversionRate: real)

  function Origins(ls: seq<Lead>): (origins: seq<Option<string>>)
    ensures |origins| == |ls| && forall i :: 0 <= i < |ls| ==> origins[i] == ls[i].origin
  {
    seq(|ls|, i requires 0 <= i < |ls| => ls[i].origin)
  }

  function Won(ls: seq<Lead>): (won: seq<bool>)
    ensures |won| == |ls| && forall i :: 0 <= i < |ls| ==> (won[i] <==> ls[i].wonDate.Some?)
  {
    seq(|ls|, i requires 0 <= i < |ls| => ls[i].wonDate.Some?)
  }

  /** Every value listed once from a column with missing values occurs in it. */
  lemma KnownOriginsOccur(origins: seq<Option<string>>)
    ensures forall o :: o in Unique(Present(origins)) ==> Some(o) in origins
  {
    forall o | o in Unique(Present(origins)) ensures Some(o) in origins {
      assert Count(Present(origins), o) > 0;
    }
  }

  /** Every value present in a column is listed once. */
  lemma KnownOriginListed(origins: seq<Option<string>>, i: int)
    requires 0 <= i < |origins| && origins[i].Some?
    ensures exists j :: 0 <= j < |Unique(Present(origins))| && Unique(Present(origins))[j] == origins[i].value
  {
    var os := Unique(Present(origins));
    assert Count(Present(origins), origins[i].value) > 0;
    assert origins[i].value in os;
  }

  /** The funnel figures of one origin: its leads, the deals they closed and the rate. */
  function FunnelRowOf(origins: seq<Option<string>>, won: seq<bool>, origin: string): (row: FunnelRow)
    requires |origins| == |won| && Some(origin) in origins
    ensures row.origin == origin
    ensures row.leads == Count(origins, Some(origin)) > 0
    ensures row.dealsClosed == Count(Select(origins, won, Some(origin)), true) <= row.leads
    ensures 0.0 <= row.conversionRate <= 100.0
    ensures Some(row.conversionRate) == PercentTrue(Select(origins, won, Some(origin)))
  {
    var group := Select(origins, won, Some(origin));
    var rate := PercentTrue(group);
    FunnelRow(origin, |group|, Count(group, true), rate.value)
  }

  /**
    The row holds the figures of its origin over all the leads: the leads
    from it (at least one), those that closed a deal (no more than the
    leads) and their percentage.
  */
  predicate CountsOrigin(ls: seq<Lead>, row: FunnelRow) {
    var group := Select(Origins(ls), Won(ls), Some(row.origin));
    && row.leads == Count(Origins(ls), Some(row.origin)) > 0
    && row.dealsClosed == Count(group, true) <= row.leads
    && 0.0 <= row.conversionRate <= 100.0
    && Some(row.conversionRate) == PercentTrue(group)
  }

  /**
    `groupby("origin").agg(leads=count, deals_closed=notna().sum())` and the
    conversion rate: one row per origin that occurs, each once, with the
    number of its leads, the number of those that closed a deal and the
    percentage they make; leads without an origin are left out.
  */
  function Funnel(ls: seq<Lead>): (rows: seq<FunnelRow>)
    ensures forall i, j :: 0 <= i < j < |rows| ==> rows[i].origin != rows[j].origin
    ensures forall i :: 0 <= i < |rows| ==> CountsOrigin(ls, rows[i])
  {
    var origins, won := Origins(ls), Won(ls);
    var os := Unique(Present(origins));
    KnownOriginsOccur(origins);
    var rows := seq(|os|, i requires 0 <= i < |os| => FunnelRowOf(origins, won, os[i]));
    rows
  }

  /** Every lead with an origin is counted in the funnel row of that origin. */
  lemma FunnelCoversEveryOrigin(ls: seq<Lead>, i: int)
    requires 0 <= i < |ls| && ls[i].origin.Some?
    ensures exists j :: 0 <= j < |Funnel(ls)| && Funnel(ls)[j].origin == ls[i].origin.value
  {
    var origins := Origins(ls);
    var os := Unique(Present(origins));
    assert origins[i] == ls[i].origin;
    KnownOriginListed(origins, i);
    var j :| 0 <= j < |os| && os[j] == ls[i].origin.value;
    assert Funnel(ls)[j].origin == os[j];
  }

  // ---------------------------------------------------------------------------
  // Repeat and new customers
  // ---------------------------------------------------------------------------

  datatype CustomerType = New | Repeat

  function Customers(orders: seq<Order>): (cs: seq<string>)
    ensures |cs| == |orders| && forall i :: 0 <= i < |orders| ==> cs[i] == orders[i].customer
  {
    seq(|orders|, i requires 0 <= i < |orders| => orders[i].customer)
  }

  function OrderIds(orders: seq<Order>): (ids: seq<string>)
    ensures |ids| == |orders| && forall i :: 0 <= i < |orders| ==> ids[i] == orders[i].id
  {
    seq(|orders|, i requires 0 <= i < |orders| => orders[i].id)
  }

  /** Two entries of `ids` differ. */
  predicate TwoDifferent(ids: seq<string>) {
    exists i, j :: 0 <= i < |ids| && 0 <= j < |ids| && ids[i] != ids[j]
  }

  /**
    `order_id.nunique() >= 2`: a customer is "Repeat" exactly when two of
    their orders have different ids.
  */
  function TypeOf(orders: seq<Order>, customer: string): (t: CustomerType)
    ensures t == Repeat <==> TwoDifferent(Select(Customers(orders), OrderIds(orders), customer))
  {
    var ids := Select(Customers(orders), OrderIds(orders), customer);
    TwoUniqueIffTwoDifferent(ids);
    if |Unique(ids)| >= 2 then Repeat else New
  }

  /** Two orders of the customer carry different order ids. */
  predicate TwoDistinctOrders(orders: seq<Order>, customer: string) {
    exists i, j :: 0 <= i < |orders| && 0 <= j < |orders| &&
      orders[i].customer == customer && orders[j].customer == customer && orders[i].id != orders[j].id
  }

  /** A customer is "Repeat" exactly when they placed two orders with different ids. */
  lemma RepeatIffTwoDistinctOrders(orders: seq<Order>, customer: string)
    ensures TypeOf(orders, customer) == Repeat <==> TwoDistinctOrders(orders, customer)
  {
    var cs, ids := Customers(orders), OrderIds(orders);
    var g := Select(cs, ids, customer);
    if TwoDifferent(g) {
      var a, b :| 0 <= a < |g| && 0 <= b < |g| && g[a] != g[b];
      var i :| 0 <= i < |cs| && cs[i] == customer && ids[i] == g[a];
      var j :| 0 <= j < |cs| && cs[j] == customer && ids[j] == g[b];
      assert orders[i].id != orders[j].id;
    }
    if TwoDistinctOrders(orders, customer) {
      var i, j :| 0 <= i < |orders| && 0 <= j < |orders| &&
        orders[i].customer == customer && orders[j].customer == customer && orders[i].id != orders[j].id;
      SelectContains(cs, ids, customer, i);
      SelectContains(cs, ids, customer, j);
      var a :| 0 <= a < |g| && g[a] == ids[i];
      var b :| 0 <= b < |g| && g[b] == ids[j];
      assert TwoDifferent(g);
    }
  }

  /** `cust_orders["type"]`: exactly one label per customer, in order of first appearance. */
  function CustomerTypes(orders: seq<Order>): (types: seq<(string, CustomerType)>)
    ensures |types| == |Unique(Customers(orders))|
    ensures forall i :: 0 <= i < |types| ==>
      types[i].0 == Unique(Customers(orders))[i] && types[i].1 == TypeOf(orders, types[i].0)
  {
    var cs := Unique(Customers(orders));
    seq(|cs|, i requires 0 <= i < |cs| => (cs[i], TypeOf(orders, cs[i])))
  }

  function IsRepeat(types: seq<(string, CustomerType)>): (flags: seq<bool>)
    ensures |flags| == |types| && forall i :: 0 <= i < |types| ==> (flags[i] <==> types[i].1 == Repeat)
  {
    seq(|types|, i requires 0 <= i < |types| => types[i].1 == Repeat)
  }

  /**
    `value_counts(normalize=True).mul(100)` of the labels: the shares of
    "Repeat" and "New" customers, which add up to 100; nothing when there
    are no customers.
  */
  function RepeatNewShares(types: seq<(string, CustomerType)>): (shares: Option<(real, real)>)
    ensures shares.None? <==> types == []
    ensures shares.Some? ==>
      && 0.0 <= shares.value.0 <= 100.0 && 0.0 <= shares.value.1 <= 100.0
      && shares.value.0 + shares.value.1 == 100.0
      && Some(shares.value.0) == PercentTrue(IsRepeat(types))
  {
    var repeat := IsRepeat(types);
    if types == [] then None
    else
      PercentComplement(repeat);
      Some((PercentTrue(repeat).value, PercentTrue(Negate(repeat)).value))
  }
}
