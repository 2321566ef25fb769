/** The Recency/Frequency/Monetary summary the dashboard computes for the
    selected supplier from the validated purchase orders. Dates are epoch
    milliseconds; amounts and ratios are exact reals. */
module RfmAnalysis {
  import opened Wrappers
  import opened JsValues
  import opened RowValidator
  import opened SupplierList

  /** `1000 * 60 * 60 * 24`. */
  const MsPerDay: int := 86400000

  /** The length of the month the frequency is measured in, in days. */
  const DaysPerMonth: real := 30.44

  /** The summary, before its numbers are formatted for display. */
  datatype Summary = Summary(
    recency: int,
    frequency: real,
    total: real,
    average: real,
    orderCount: nat,
    firstOrder: int,
    lastOrder: int)

  /** The order date of a validated row, in epoch milliseconds. */
  function DateOf(host: Host, row: Row): int
    requires Keep(host, row)
  {
    ParseDate(host, row.poDate).value
  }

  /** The order amount of a validated row. */
  function AmountOf(host: Host, row: Row): real
    requires Keep(host, row)
  {
    ParseAmount(host, row.poAmount).value
  }

  /** `data.filter(item => item.SUPPLIER_NAME === selectedSupplier)`. */
  function Orders(data: seq<Row>, selected: Value): (orders: seq<Row>)
    requires forall i :: 0 <= i < |data| ==> data[i].Record?
    ensures |orders| <= |data|
  {
    if data == [] then []
    else (if data[0].supplierName == selected then [data[0]] else []) + Orders(data[1..], selected)
  }

  /** `orders.map(order => new Date(order.PO_DATE))`. */
  function Dates(host: Host, orders: seq<Row>): (dates: seq<int>)
    requires AllKept(host, orders)
    ensures |dates| == |orders|
    ensures forall k :: 0 <= k < |orders| ==> dates[k] == DateOf(host, orders[k])
  {
    seq(|orders|, k requires 0 <= k < |orders| && Keep(host, orders[k]) => DateOf(host, orders[k]))
  }

  /** `orders.reduce((sum, order) => sum + parseFloat(order.PO_AMOUNT), 0)`;
      over exact reals the order of the additions does not matter. */
  function Total(host: Host, orders: seq<Row>): (total: real)
    requires AllKept(host, orders)
    ensures (forall k :: 0 <= k < |orders| ==> AmountOf(host, orders[k]) >= 0.0) ==> total >= 0.0
  {
    if orders == [] then 0.0 else AmountOf(host, orders[0]) + Total(host, orders[1..])
  }

  /** `Math.max(...dates)`. */
  function MaxOf(dates: seq<int>): (m: int)
    requires |dates| > 0
    ensures m in dates
    ensures forall d :: d in dates ==> d <= m
  {
    if |dates| == 1 then dates[0]
    else
      assert dates == [dates[0]] + dates[1..];
      var rest := MaxOf(dates[1..]);
      if rest < dates[0] then dates[0] else rest
  }

  /** `Math.min(...dates)`. */
  function MinOf(dates: seq<int>): (m: int)
    requires |dates| > 0
    ensures m in dates
    ensures forall d :: d in dates ==> m <= d
  {
    if |dates| == 1 then dates[0]
    else
      assert dates == [dates[0]] + dates[1..];
      var rest := MinOf(dates[1..]);
      if dates[0] < rest then dates[0] else rest
  }

  /** `Math.round(ms / MsPerDay)`: the nearest whole number of days, halves
      rounded up. */
  function RoundDays(ms: int): (days: int)
    ensures MsPerDay * (2 * days - 1) <= 2 * ms < MsPerDay * (2 * days + 1)
  {
    (2 * ms + MsPerDay) / (2 * MsPerDay)
  }

  /** `(lastOrderDate - firstOrderDate) / (1000 * 60 * 60 * 24 * 30.44)`. */
  function SpanMonths(first: int, last: int): (months: real)
    ensures months == 0.0 <==> first == last
    ensures first < last ==> months > 0.0
  {
    (last - first) as real / (MsPerDay as real * DaysPerMonth)
  }

  /** The summary of a supplier's orders, `orders` being all of them. */
  function Summarize(host: Host, orders: seq<Row>, now: int): (s: Summary)
    requires |orders| > 0 && AllKept(host, orders)
    ensures s.orderCount == |orders| && s.firstOrder <= s.lastOrder
  {
    var dates := Dates(host, orders);
    var total := Total(host, orders);
    var last, first := MaxOf(dates), MinOf(dates);
    var months := SpanMonths(first, last);
    Summary(
      recency := RoundDays(now - last),
      frequency := |orders| as real / (if months == 0.0 then 1.0 else months),
      total := total,
      average := total / |orders| as real,
      orderCount := |orders|,
      firstOrder := first,
      lastOrder := last)
  }

  /** `calculateRFM` for `now`, the clock reading taken by `new Date()`: None is
      the `null` summary. The dashboard only holds validated rows. */
  function Calculate(host: Host, data: seq<Row>, selected: Value, now: int): (r: Option<Summary>)
    requires AllKept(host, data)
    ensures r.Some? ==> r.value.orderCount >= 1 && r.value.firstOrder <= r.value.lastOrder
  {
    if !Truthy(selected) || selected == AllSuppliers || |data| == 0 then None
    else
      var orders := Orders(data, selected);
      if |orders| == 0 then None
      else
        OrdersKept(host, data, selected);
        Some(Summarize(host, orders, now))
  }

  /** The selected rows are validated rows of the right supplier. */
  lemma {:induction false} OrdersKept(host: Host, data: seq<Row>, selected: Value)
    requires AllKept(host, data)
    ensures AllKept(host, Orders(data, selected))
    ensures forall k :: 0 <= k < |Orders(data, selected)| ==> Orders(data, selected)[k].supplierName == selected
  {
    if data != [] {
      OrdersKept(host, data[1..], selected);
    }
  }

  /** The number of rows of `data` whose supplier is `selected`, counted
      without filtering. */
  function CountWhere(data: seq<Row>, selected: Value): nat
    requires forall i :: 0 <= i < |data| ==> data[i].Record?
  {
    if data == [] then 0
    else (if data[0].supplierName == selected then 1 else 0) + CountWhere(data[1..], selected)
  }

  /** The amounts of the rows of `data` whose supplier is `selected`, added up
      without filtering (every other row contributes 0). */
  function SumWhere(host: Host, data: seq<Row>, selected: Value): real
    requires AllKept(host, data)
  {
    if data == [] then 0.0
    else
      (if data[0].supplierName == selected then AmountOf(host, data[0]) else 0.0)
      + SumWhere(host, data[1..], selected)
  }

  /** The selection filter keeps each matching row as often as it occurs, and
      nothing else. */
  lemma {:induction false} OrdersOccurrences(data: seq<Row>, selected: Value, row: Row)
    requires forall i :: 0 <= i < |data| ==> data[i].Record?
    ensures multiset(Orders(data, selected))[row]
         == if row.Record? && row.supplierName == selected then multiset(data)[row] else 0
  {
    if data != [] {
      OrdersOccurrences(data[1..], selected, row);
      var head := if data[0].supplierName == selected then [data[0]] else [];
      assert Orders(data, selected) == head + Orders(data[1..], selected);
      assert data == [data[0]] + data[1..];
      assert multiset(data) == multiset([data[0]]) + multiset(data[1..]);
    }
  }

  lemma OrdersMembership(data: seq<Row>, selected: Value, row: Row)
    requires forall i :: 0 <= i < |data| ==> data[i].Record?
    ensures row in Orders(data, selected) <==> row in data && row.supplierName == selected
  {
    OrdersOccurrences(data, selected, row);
    assert row in Orders(data, selected) <==> row in multiset(Orders(data, selected));
    assert row in data <==> row in multiset(data);
  }

  lemma {:induction false} OrdersCount(data: seq<Row>, selected: Value)
    requires forall i :: 0 <= i < |data| ==> data[i].Record?
    ensures |Orders(data, selected)| == CountWhere(data, selected)
  {
    if data != [] {
      OrdersCount(data[1..], selected);
    }
  }

  lemma {:induction false} OrdersTotal(host: Host, data: seq<Row>, selected: Value)
    requires AllKept(host, data)
    ensures AllKept(host, Orders(data, selected))
    ensures Total(host, Orders(data, selected)) == SumWhere(host, data, selected)
  {
    OrdersKept(host, data, selected);
    if data != [] {
      OrdersTotal(host, data[1..], selected);
      var rest := Orders(data[1..], selected);
      if data[0].supplierName == selected {
        assert Orders(data, selected) == [data[0]] + rest;
        assert ([data[0]] + rest)[1..] == rest;
      } else {
        assert Orders(data, selected) == rest;
      }
    }
  }

  /** A quotient times its positive divisor gives back the dividend. */
  lemma QuotientTimesDivisor(quotient: real, dividend: real, divisor: real)
    requires divisor > 0.0 && quotient == dividend / divisor
    ensures quotient * divisor == dividend
    ensures dividend > 0.0 ==> quotient > 0.0
  {
  }

  /** `average` is `total` shared equally among `count` orders. */
  ghost predicate IsAverage(average: real, total: real, count: nat)
  {
    count >= 1 && average * count as real == total
  }

  /** `frequency` is `count` orders per month over the span from `first` to
      `last`; a span of zero counts as one month. */
  ghost predicate IsMonthlyRate(frequency: real, count: nat, first: int, last: int)
  {
    && (first == last ==> frequency == count as real)
    && (first < last ==> frequency > 0.0 && frequency * SpanMonths(first, last) == count as real)
  }

  lemma AverageTimesCount(s: Summary)
    requires s.orderCount >= 1 && s.average == s.total / s.orderCount as real
    ensures IsAverage(s.average, s.total, s.orderCount)
  {
    QuotientTimesDivisor(s.average, s.total, s.orderCount as real);
  }

  lemma FrequencyTimesSpan(s: Summary)
    requires s.orderCount >= 1 && s.firstOrder <= s.lastOrder
    requires var months := SpanMonths(s.firstOrder, s.lastOrder);
      s.frequency == s.orderCount as real / (if months == 0.0 then 1.0 else months)
    ensures IsMonthlyRate(s.frequency, s.orderCount, s.firstOrder, s.lastOrder)
  {
    if s.firstOrder < s.lastOrder {
      QuotientTimesDivisor(s.frequency, s.orderCount as real, SpanMonths(s.firstOrder, s.lastOrder));
    }
  }

  /** A summary exists exactly when a supplier is selected and some row
      belongs to it; it then summarizes exactly that supplier's rows. */
  lemma CalculateSummarizes(host: Host, data: seq<Row>, selected: Value, now: int)
    requires AllKept(host, data)
    ensures AllKept(host, Orders(data, selected))
    ensures Calculate(host, data, selected, now).Some? <==>
      Truthy(selected) && selected != AllSuppliers && |Orders(data, selected)| > 0
    ensures Calculate(host, data, selected, now).Some? ==>
      Calculate(host, data, selected, now).value == Summarize(host, Orders(data, selected), now)
  {
    OrdersKept(host, data, selected);
    if |data| == 0 {
      assert Orders(data, selected) == [];
    }
  }

  /** Filtering a concatenation filters each part. */
  lemma {:induction false} OrdersAppend(a: seq<Row>, b: seq<Row>, selected: Value)
    requires forall i :: 0 <= i < |a| ==> a[i].Record?
    requires forall i :: 0 <= i < |b| ==> b[i].Record?
    ensures Orders(a + b, selected) == Orders(a, selected) + Orders(b, selected)
  {
    if a != [] {
      OrdersAppend(a[1..], b, selected);
      assert (a + b)[0] == a[0] && (a + b)[1..] == a[1..] + b;
      var head := if a[0].supplierName == selected then [a[0]] else [];
      assert Orders(a + b, selected) == head + Orders(a[1..] + b, selected);
      AppendAssociative(head, Orders(a[1..], selected), Orders(b, selected));
    } else {
      assert a + b == b;
    }
  }

  /** Rows carrying none of the selected name contribute no orders. */
  lemma OrdersNone(data: seq<Row>, selected: Value)
    requires forall i :: 0 <= i < |data| ==> data[i].Record? && data[i].supplierName != selected
    ensures Orders(data, selected) == []
  {
    if Orders(data, selected) != [] {
      OrdersMembership(data, selected, Orders(data, selected)[0]);
    }
  }

  /** Rows of other suppliers, wherever they are added to the data, do not
      change the summary of the selected supplier. */
  lemma OtherSuppliersIgnored(host: Host, data: seq<Row>, other: seq<Row>, selected: Value, now: int)
    requires AllKept(host, data + other)
    requires forall i :: 0 <= i < |other| ==> other[i].Record? && other[i].supplierName != selected
    ensures AllKept(host, data)
    ensures Calculate(host, data + other, selected, now) == Calculate(host, data, selected, now)
  {
    assert forall i :: 0 <= i < |data| ==> (data + other)[i] == data[i];
    assert forall i :: 0 <= i < |other| ==> (data + other)[|data| + i] == other[i];
    OrdersAppend(data, other, selected);
    OrdersNone(other, selected);
    assert Orders(data + other, selected) == Orders(data, selected);
    if data == [] {
      assert Orders(data, selected) == [];
    }
  }

  /** There is no summary exactly when no supplier is selected (a falsy value
      or the sentinel "all") or no row's supplier equals the selection; in
      particular when the data is empty. */
  lemma RfmAbsent(host: Host, data: seq<Row>, selected: Value, now: int)
    requires AllKept(host, data)
    ensures Calculate(host, data, selected, now).None? <==>
      || !Truthy(selected)
      || selected == AllSuppliers
      || forall i :: 0 <= i < |data| ==> data[i].supplierName != selected
  {
    CalculateSummarizes(host, data, selected, now);
    var orders := Orders(data, selected);
    if i :| 0 <= i < |data| && data[i].supplierName == selected {
      OrdersMembership(data, selected, data[i]);
    }
    if |orders| > 0 {
      OrdersMembership(data, selected, orders[0]);
      assert orders[0] in data;
    }
  }

  /** Selecting a supplier whose name is the string "all" never yields a summary. */
  lemma SupplierNamedAllHasNoSummary(host: Host, data: seq<Row>, now: int)
    requires AllKept(host, data)
    ensures Calculate(host, data, Str("all"), now) == None
  {
  }

  /** The order count is the number of matching rows; the total is the sum of
      their amounts, and the average is the total shared equally among them. */
  lemma RfmMonetary(host: Host, data: seq<Row>, selected: Value, now: int)
    requires AllKept(host, data)
    ensures var r := Calculate(host, data, selected, now);
      r.Some? ==>
        && r.value.orderCount == CountWhere(data, selected) >= 1
        && r.value.total == SumWhere(host, data, selected)
        && IsAverage(r.value.average, r.value.total, r.value.orderCount)
  {
    CalculateSummarizes(host, data, selected, now);
    if Calculate(host, data, selected, now).Some? {
      var s := Calculate(host, data, selected, now).value;
      OrdersCount(data, selected);
      OrdersTotal(host, data, selected);
      AverageTimesCount(s);
    }
  }

  /** The first and last order dates are the earliest and the latest dates of
      the matching rows, each the date of an actual matching row. */
  lemma RfmOrderDates(host: Host, data: seq<Row>, selected: Value, now: int)
    requires AllKept(host, data)
    ensures var r := Calculate(host, data, selected, now);
      r.Some? ==>
        && r.value.firstOrder <= r.value.lastOrder
        && (exists i :: 0 <= i < |data| && data[i].supplierName == selected && DateOf(host, data[i]) == r.value.firstOrder)
        && (exists i :: 0 <= i < |data| && data[i].supplierName == selected && DateOf(host, data[i]) == r.value.lastOrder)
        && (forall i :: 0 <= i < |data| && data[i].supplierName == selected ==>
              r.value.firstOrder <= DateOf(host, data[i]) <= r.value.lastOrder)
  {
    if Calculate(host, data, selected, now).Some? {
      CalculateSummarizes(host, data, selected, now);
      var s := Calculate(host, data, selected, now).value;
      var orders := Orders(data, selected);
      var dates := Dates(host, orders);
      assert s.firstOrder == MinOf(dates) && s.lastOrder == MaxOf(dates);
      var kf :| 0 <= kf < |dates| && dates[kf] == s.firstOrder;
      var kl :| 0 <= kl < |dates| && dates[kl] == s.lastOrder;
      OrdersMembership(data, selected, orders[kf]);
      OrdersMembership(data, selected, orders[kl]);
      var i :| 0 <= i < |data| && data[i] == orders[kf];
      var j :| 0 <= j < |data| && data[j] == orders[kl];
      assert DateOf(host, data[i]) == s.firstOrder;
      assert DateOf(host, data[j]) == s.lastOrder;
      forall i | 0 <= i < |data| && data[i].supplierName == selected
        ensures s.firstOrder <= DateOf(host, data[i]) <= s.lastOrder
      {
        OrdersMembership(data, selected, data[i]);
        var k :| 0 <= k < |orders| && orders[k] == data[i];
        assert dates[k] == DateOf(host, data[i]);
        assert dates[k] in dates;
      }
    }
  }

  /** Orders per month: with all orders on one instant the span falls back to
      one month, so the frequency is the order count; otherwise the frequency
      times the span in months is the order count, and it is positive. */
  lemma RfmFrequency(host: Host, data: seq<Row>, selected: Value, now: int)
    requires AllKept(host, data)
    ensures var r := Calculate(host, data, selected, now);
      r.Some? ==> IsMonthlyRate(r.value.frequency, r.value.orderCount, r.value.firstOrder, r.value.lastOrder)
  {
    CalculateSummarizes(host, data, selected, now);
    if Calculate(host, data, selected, now).Some? {
      FrequencyTimesSpan(Calculate(host, data, selected, now).value);
    }
  }

  /** Recency is the number of days from the last order to `now`, rounded to the
      nearest whole day (halves up); it is negative exactly when the last order
      lies more than half a day after `now`. */
  lemma RfmRecency(host: Host, data: seq<Row>, selected: Value, now: int)
    requires AllKept(host, data)
    ensures var r := Calculate(host, data, selected, now);
      r.Some? ==>
        && MsPerDay * (2 * r.value.recency - 1) <= 2 * (now - r.value.lastOrder) < MsPerDay * (2 * r.value.recency + 1)
        && (r.value.recency < 0 <==> 2 * (r.value.lastOrder - now) > MsPerDay)
  {
    CalculateSummarizes(host, data, selected, now);
  }
}

/** Worked examples of the summary, with the date strings pinned to their
    UTC midnights. */
module RfmExamples {
  import opened Wrappers
  import opened JsValues
  import opened RowValidator
  import opened RfmAnalysis

  /** One order of 100 on 2024-03-01, looked at ten days later. */
  lemma SingleOrder(host: Host)
    requires host.dateText("2024-03-01") == Some(1709251200000)
    ensures var row := Record(Str("X"), Str("2024-03-01"), Num(1.0), Num(100.0), Str("paper"));
      && Keep(host, row)
      && Calculate(host, [row], Str("X"), 1710115200000)
         == Some(Summary(
              recency := 10, frequency := 1.0, total := 100.0, average := 100.0,
              orderCount := 1, firstOrder := 1709251200000, lastOrder := 1709251200000))
  {
    var row := Record(Str("X"), Str("2024-03-01"), Num(1.0), Num(100.0), Str("paper"));
    assert Orders([row], Str("X")) == [row] by {
      assert [row][1..] == [];
    }
    assert Dates(host, [row]) == [1709251200000];
    assert Total(host, [row]) == 100.0 by {
      assert [row][1..] == [];
    }
    assert RoundDays(1710115200000 - 1709251200000) == 10;
  }

  /** The span between 2024-01-01 and 2024-03-02: 61 days of 30.44. */
  lemma SixtyOneDays()
    ensures SpanMonths(1704067200000, 1709337600000) == 61.0 / 30.44
  {
    assert 1709337600000 - 1704067200000 == 61 * MsPerDay;
    assert (61 * MsPerDay) as real == 61.0 * MsPerDay as real;
  }

  /** The summary of two orders of 200 and 300 on 2024-01-01 and 2024-03-02, on 2024-03-11. */
  lemma TwoOrderSummary(host: Host, a: Row, c: Row)
    requires Keep(host, a) && Keep(host, c)
    requires DateOf(host, a) == 1704067200000 && AmountOf(host, a) == 200.0
    requires DateOf(host, c) == 1709337600000 && AmountOf(host, c) == 300.0
    ensures Summarize(host, [a, c], 1710115200000)
      == Summary(
           recency := 9, frequency := 60.88 / 61.0, total := 500.0, average := 250.0,
           orderCount := 2, firstOrder := 1704067200000, lastOrder := 1709337600000)
  {
    var dates := Dates(host, [a, c]);
    assert dates == [1704067200000, 1709337600000];
    assert MaxOf(dates) == 1709337600000 by {
      assert dates[1..] == [1709337600000];
    }
    assert MinOf(dates) == 1704067200000 by {
      assert dates[1..] == [1709337600000];
    }
    assert Total(host, [a, c]) == 500.0 by {
      assert [a, c][1..] == [c];
      assert Total(host, [c]) == 300.0 by {
        assert [c][1..] == [];
      }
    }
    assert RoundDays(1710115200000 - 1709337600000) == 9;
    SixtyOneDays();
  }

  /** Selecting the supplier of the first and last of three rows. */
  lemma SelectFirstAndLast(a: Row, b: Row, c: Row, selected: Value)
    requires a.Record? && b.Record? && c.Record?
    requires a.supplierName == selected && b.supplierName != selected && c.supplierName == selected
    ensures Orders([a, b, c], selected) == [a, c]
  {
    assert Orders([c], selected) == [c] by {
      assert [c][1..] == [];
    }
    assert Orders([b, c], selected) == [c] by {
      assert [b, c][1..] == [c];
    }
    assert [a, b, c][1..] == [b, c];
  }

  /** Orders of 200 on 2024-01-01 and 300 on 2024-03-02 (61 days apart, 2024
      being a leap year), among another supplier's order, looked at on
      2024-03-11: two orders in 61/30.44 months. The second amount is text
      that `parseFloat` reads as 300. */
  lemma TwoOrders(host: Host)
    requires host.dateText("2024-01-01") == Some(1704067200000)
    requires host.dateText("2024-03-02") == Some(1709337600000)
    requires host.floatText("300") == Some(300.0)
    ensures var a := Record(Str("Y"), Str("2024-01-01"), Num(2.0), Num(200.0), Str("desk"));
      var b := Record(Str("Z"), Str("2024-01-01"), Num(3.0), Num(50.0), Str("pens"));
      var c := Record(Str("Y"), Str("2024-03-02"), Num(4.0), Str("300"), Str("chair"));
      && Keep(host, a) && Keep(host, b) && Keep(host, c)
      && Calculate(host, [a, b, c], Str("Y"), 1710115200000)
         == Some(Summary(
              recency := 9, frequency := 60.88 / 61.0, total := 500.0, average := 250.0,
              orderCount := 2, firstOrder := 1704067200000, lastOrder := 1709337600000))
  {
    var a := Record(Str("Y"), Str("2024-01-01"), Num(2.0), Num(200.0), Str("desk"));
    var b := Record(Str("Z"), Str("2024-01-01"), Num(3.0), Num(50.0), Str("pens"));
    var c := Record(Str("Y"), Str("2024-03-02"), Num(4.0), Str("300"), Str("chair"));
    SelectFirstAndLast(a, b, c, Str("Y"));
    TwoOrderSummary(host, a, c);
  }
}
