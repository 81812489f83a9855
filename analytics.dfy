/**
 * What the run derives from one product's history: whether today already
 * holds a valid price (the skip rule), the previous-day price, and the
 * all-time low with the date it is reported on.
 */
module Analytics {
  import opened Prices
  import opened Ledger

  /** The skip rule: the history holds a row dated `today` whose price is anything but "N/A". */
  predicate RecordedOn(hist: seq<Row>, today: Date) {
    exists k :: 0 <= k < |hist| && hist[k].date == today && hist[k].price != NA
  }

  /** The search of amazon_price.py:84-88, which stops at the first row dated today with a price other than "N/A". */
  method FindRecorded(hist: seq<Row>, today: Date) returns (found: bool)
    ensures found == RecordedOn(hist, today)
  {
    found := false;
    var k := 0;
    while k < |hist|
      invariant 0 <= k <= |hist|
      invariant forall j :: 0 <= j < k ==> !(hist[j].date == today && hist[j].price != NA)
    {
      if hist[k].date == today && hist[k].price != NA {
        found := true;
        break;
      }
      k := k + 1;
    }
  }

  /** The skip rule asks whether the history has a row of today whose price is not "N/A". */
  lemma RecordedOnValidRows(hist: seq<Row>, day: Date)
    ensures RecordedOn(hist, day) <==> Filter(hist, ValidOn(day)) != []
  {
    FilterMembers(hist, ValidOn(day));
    if RecordedOn(hist, day) {
      var k :| 0 <= k < |hist| && hist[k].date == day && hist[k].price != NA;
      assert hist[k] in Filter(hist, ValidOn(day));
    }
  }

  /** The numeric prices of the history, in ledger order: `all_prices`. */
  function NumericPrices(hist: seq<Row>): seq<int> {
    if hist == [] then []
    else
      var last := hist[|hist| - 1];
      NumericPrices(hist[..|hist| - 1]) + (if last.price.Num? then [last.price.cents] else [])
  }

  /** The smallest element, Python's `min`. */
  function MinOf(s: seq<int>): (m: int)
    requires |s| > 0
    ensures m in s
    ensures forall k :: 0 <= k < |s| ==> m <= s[k]
  {
    if |s| == 1 then s[0]
    else
      var m := MinOf(s[..|s| - 1]);
      if s[|s| - 1] < m then s[|s| - 1] else m
  }

  /** `previous_price`: the last numeric price dated `yesterday`, else "N/A". */
  function PreviousPrice(hist: seq<Row>, yesterday: Date): Price {
    if hist == [] then NA
    else
      var last := hist[|hist| - 1];
      if last.date == yesterday && last.price.Num? then last.price
      else PreviousPrice(hist[..|hist| - 1], yesterday)
  }

  /** The running low of the history loop: a price and the date it is reported on. */
  datatype Low = Low(price: Price, date: Date)

  /**
   * `lowest_price` and `lowest_price_date` as the history loop leaves
   * them: they start at today's price and today, and move to a row only
   * when its numeric price is strictly below a numeric running low.
   */
  function RunningLow(hist: seq<Row>, todayPrice: Price, today: Date): Low {
    if hist == [] then Low(todayPrice, today)
    else
      var low := RunningLow(hist[..|hist| - 1], todayPrice, today);
      var last := hist[|hist| - 1];
      if last.price.Num? && low.price.Num? && last.price.cents < low.price.cents then Low(last.price, last.date)
      else low
  }

  /** The reported all-time low: the minimum of `all_prices` and today's price, or "N/A" when today's price is not numeric. */
  function LowestPrice(hist: seq<Row>, todayPrice: Price): Price {
    if todayPrice.Num? then Num(MinOf(NumericPrices(hist) + [todayPrice.cents])) else NA
  }

  /** The analytics of amazon_price.py:115-139 over the history of one product. */
  method Analyze(hist: seq<Row>, today: Date, yesterday: Date, todayPrice: Price)
    returns (previous: Price, lowest: Price, lowestDate: Date)
    ensures previous == PreviousPrice(hist, yesterday)
    ensures lowest == LowestPrice(hist, todayPrice)
    ensures lowestDate == RunningLow(hist, todayPrice, today).date
  {
    previous := NA;
    var running := todayPrice;
    var allPrices: seq<int> := [];
    lowestDate := today;
    for k := 0 to |hist|
      invariant previous == PreviousPrice(hist[..k], yesterday)
      invariant Low(running, lowestDate) == RunningLow(hist[..k], todayPrice, today)
      invariant allPrices == NumericPrices(hist[..k])
    {
      assert hist[..k + 1][..k] == hist[..k];
      var entry := hist[k];
      if entry.price.Num? {
        var p := entry.price.cents;
        allPrices := allPrices + [p];
        if entry.date == yesterday {
          previous := Num(p);
        }
        // float(lowest_price) raises ValueError unless the running low is numeric
        if running.Num? && p < running.cents {
          running := Num(p);
          lowestDate := entry.date;
        }
      }
    }
    assert hist[..|hist|] == hist;
    if todayPrice.Num? {
      if allPrices != [] {
        lowest := Num(MinOf(allPrices + [todayPrice.cents]));
      } else {
        lowest := Num(todayPrice.cents);
      }
    } else {
      lowest := NA;
    }
  }

  /** A value is in `all_prices` exactly when some row of the history carries it as its numeric price. */
  lemma {:induction false} NumericPricesMembers(hist: seq<Row>)
    ensures forall x :: x in NumericPrices(hist) <==> exists k :: 0 <= k < |hist| && hist[k].price == Num(x)
  {
    if hist != [] {
      var init := hist[..|hist| - 1];
      NumericPricesMembers(init);
      assert forall k :: 0 <= k < |init| ==> init[k] == hist[k];
    }
  }

  /**
   * `previous_price` stays "N/A" unless a row dated exactly `yesterday` has
   * a numeric price; otherwise it is the price of the last such row.
   */
  lemma {:induction false} PreviousPriceSpec(hist: seq<Row>, yesterday: Date)
    ensures PreviousPrice(hist, yesterday) == NA <==>
      forall k :: 0 <= k < |hist| && hist[k].date == yesterday ==> !hist[k].price.Num?
    ensures PreviousPrice(hist, yesterday) != NA ==>
      exists k :: 0 <= k < |hist| && hist[k].date == yesterday && hist[k].price.Num?
        && hist[k].price == PreviousPrice(hist, yesterday)
        && forall j :: k < j < |hist| && hist[j].date == yesterday ==> !hist[j].price.Num?
  {
    if hist != [] {
      var init := hist[..|hist| - 1];
      var last := hist[|hist| - 1];
      PreviousPriceSpec(init, yesterday);
      assert forall k :: 0 <= k < |init| ==> init[k] == hist[k];
      if !(last.date == yesterday && last.price.Num?) && PreviousPrice(init, yesterday) != NA {
        var k :| 0 <= k < |init| && init[k].date == yesterday && init[k].price.Num?
          && init[k].price == PreviousPrice(init, yesterday)
          && forall j :: k < j < |init| && init[j].date == yesterday ==> !init[j].price.Num?;
        assert hist[k] == init[k];
      }
    }
  }

  /**
   * With a numeric price of today `t`, the running low is the minimum of
   * `t` and every numeric price of the history; it is reported on today when
   * no row is strictly below `t`, and otherwise on the first row that
   * carries the minimum.
   */
  lemma {:induction false} RunningLowSpec(hist: seq<Row>, t: int, today: Date)
    ensures RunningLow(hist, Num(t), today).price.Num?
    ensures RunningLow(hist, Num(t), today).price.cents <= t
    ensures forall k :: 0 <= k < |hist| && hist[k].price.Num? ==>
      RunningLow(hist, Num(t), today).price.cents <= hist[k].price.cents
    ensures RunningLow(hist, Num(t), today).price.cents == t ==> RunningLow(hist, Num(t), today).date == today
    ensures RunningLow(hist, Num(t), today).price.cents < t ==>
      exists k :: 0 <= k < |hist| && hist[k].price == RunningLow(hist, Num(t), today).price
        && hist[k].date == RunningLow(hist, Num(t), today).date
        && forall j :: 0 <= j < k && hist[j].price.Num? ==> RunningLow(hist, Num(t), today).price.cents < hist[j].price.cents
  {
    if hist != [] {
      var init := hist[..|hist| - 1];
      var last := hist[|hist| - 1];
      RunningLowSpec(init, t, today);
      var low := RunningLow(init, Num(t), today);
      assert forall k :: 0 <= k < |init| ==> init[k] == hist[k];
      if last.price.Num? && last.price.cents < low.price.cents {
        assert RunningLow(hist, Num(t), today) == Low(last.price, last.date);
        assert hist[|hist| - 1] == last;
      } else {
        assert RunningLow(hist, Num(t), today) == low;
        if low.price.cents < t {
          var k :| 0 <= k < |init| && init[k].price == low.price && init[k].date == low.date
            && forall j :: 0 <= j < k && init[j].price.Num? ==> low.price.cents < init[j].price.cents;
          assert hist[k] == init[k];
        }
      }
    }
  }

  /**
   * With a numeric price of today, the reported all-time low is the minimum
   * of today's price and every numeric price of the history: at most each of
   * them, and equal to one of them.
   */
  lemma LowestIsMinimum(hist: seq<Row>, t: int)
    ensures LowestPrice(hist, Num(t)).Num?
    ensures LowestPrice(hist, Num(t)).cents <= t
    ensures forall k :: 0 <= k < |hist| && hist[k].price.Num? ==> LowestPrice(hist, Num(t)).cents <= hist[k].price.cents
    ensures LowestPrice(hist, Num(t)).cents == t
      || exists k :: 0 <= k < |hist| && hist[k].price == LowestPrice(hist, Num(t))
  {
    var all := NumericPrices(hist) + [t];
    var m := MinOf(all);
    NumericPricesMembers(hist);
    assert all[|all| - 1] == t;
    forall k | 0 <= k < |hist| && hist[k].price.Num?
      ensures m <= hist[k].price.cents
    {
      var x := hist[k].price.cents;
      assert x in NumericPrices(hist);
      var i :| 0 <= i < |NumericPrices(hist)| && NumericPrices(hist)[i] == x;
      assert all[i] == x;
    }
    if m != t {
      assert m in NumericPrices(hist);
    }
  }

  /**
   * The running low of the loop and the final `min(all_prices + [current])`
   * agree: the date the report gives belongs to the low it reports.
   */
  lemma RunningLowIsLowest(hist: seq<Row>, t: int, today: Date)
    ensures RunningLow(hist, Num(t), today).price == LowestPrice(hist, Num(t))
  {
    RunningLowSpec(hist, t, today);
    LowestIsMinimum(hist, t);
    var r := RunningLow(hist, Num(t), today).price;
    var l := LowestPrice(hist, Num(t));
    if r.cents < t {
      var k :| 0 <= k < |hist| && hist[k].price == r;
      assert l.cents <= r.cents;
    }
    if l.cents < t {
      var k :| 0 <= k < |hist| && hist[k].price == l;
      assert r.cents <= l.cents;
    }
  }

  /**
   * When today's price is not numeric the running low never moves: the low
   * is reported as "N/A" on today.
   */
  lemma {:induction false} NonNumericToday(hist: seq<Row>, todayPrice: Price, today: Date)
    requires !todayPrice.Num?
    ensures RunningLow(hist, todayPrice, today) == Low(todayPrice, today)
    ensures LowestPrice(hist, todayPrice) == NA
  {
    if hist != [] {
      NonNumericToday(hist[..|hist| - 1], todayPrice, today);
    }
  }

  /**
   * Rows whose price float() rejects are ignored: the analytics of a
   * history are those of its numeric rows alone.
   */
  lemma OnlyPricedRowsMatter(hist: seq<Row>, today: Date, yesterday: Date, todayPrice: Price)
    ensures PreviousPrice(Filter(hist, Priced), yesterday) == PreviousPrice(hist, yesterday)
    ensures NumericPrices(Filter(hist, Priced)) == NumericPrices(hist)
    ensures RunningLow(Filter(hist, Priced), todayPrice, today) == RunningLow(hist, todayPrice, today)
    ensures LowestPrice(Filter(hist, Priced), todayPrice) == LowestPrice(hist, todayPrice)
  {
    PricedPrevious(hist, yesterday);
    PricedNumeric(hist);
    PricedRunningLow(hist, today, todayPrice);
  }

  lemma {:induction false} PricedPrevious(hist: seq<Row>, yesterday: Date)
    ensures PreviousPrice(Filter(hist, Priced), yesterday) == PreviousPrice(hist, yesterday)
  {
    if hist != [] {
      PricedPrevious(hist[..|hist| - 1], yesterday);
      PricedLast(hist);
    }
  }

  lemma {:induction false} PricedNumeric(hist: seq<Row>)
    ensures NumericPrices(Filter(hist, Priced)) == NumericPrices(hist)
  {
    if hist != [] {
      PricedNumeric(hist[..|hist| - 1]);
      PricedLast(hist);
    }
  }

  lemma {:induction false} PricedRunningLow(hist: seq<Row>, today: Date, todayPrice: Price)
    ensures RunningLow(Filter(hist, Priced), todayPrice, today) == RunningLow(hist, todayPrice, today)
  {
    if hist != [] {
      PricedRunningLow(hist[..|hist| - 1], today, todayPrice);
      PricedLast(hist);
    }
  }

  /** The numeric rows of a history, split at its last row. */
  lemma PricedLast(hist: seq<Row>)
    requires hist != []
    ensures var f := Filter(hist, Priced);
      var last := hist[|hist| - 1];
      if last.price.Num? then f != [] && f[..|f| - 1] == Filter(hist[..|hist| - 1], Priced) && f[|f| - 1] == last
      else f == Filter(hist[..|hist| - 1], Priced)
  {
  }
}
