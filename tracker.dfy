/**
 * One run of the tracker end to end: load and clean the ledger, visit every
 * tracked URL, and build the e-mail body when something was recorded.  The
 * scrapes of the URLs are given, one per URL in list order.
 */
module Tracker {
  import opened Options
  import opened Prices
  import opened Ledger
  import opened Analytics
  import opened Reconciler
  import opened Report

  /** The script from amazon_price.py:49-193, with scraping, files and e-mail taken out. */
  method DailyPass(existing: seq<Row>, today: Date, yesterday: Date, urls: seq<Url>, fetches: seq<Fetch>)
    returns (ledger: seq<Row>, report: seq<Entry>, body: Option<seq<string>>)
    requires |fetches| == |urls|
    ensures Pass(ledger, report) == Reconcile(existing, today, yesterday, urls, fetches)
    ensures body == ReportBody(today, report)
  {
    var run := new DailyRun(existing, today, yesterday, urls);
    run.VisitAll(fetches);
    ledger, report := run.ledger, run.report;
    body := BuildBody(today, report);
  }

  /**
   * A second run on the same day after a run that recorded a valid price for
   * every tracked URL writes the ledger back unchanged and sends no e-mail.
   */
  lemma SecondRunSendsNothing(existing: seq<Row>, today: Date, yesterday: Date, urls: seq<Url>,
                              first: seq<Fetch>, second: seq<Fetch>)
    requires |first| == |urls| && |second| == |urls|
    requires forall i :: 0 <= i < |urls| ==>
      RecordedOn(HistoryOf(existing, urls[i]), today) || (first[i].Fetched? && first[i].price != NA)
    ensures var p := Reconcile(existing, today, yesterday, urls, first);
      var q := Reconcile(p.ledger, today, yesterday, urls, second);
      q.ledger == p.ledger && ReportBody(today, q.report) == None
  {
    SecondRunIsNoOp(existing, today, yesterday, urls, first, second);
  }

  /** Two equal lows in the history: the earlier date is reported. */
  lemma TieInHistoryKeepsEarliest()
    ensures var hist := [Row("2024-01-01", "Pants", Num(1000), "u"), Row("2024-01-02", "Pants", Num(1000), "u")];
      RunningLow(hist, Num(1200), "2024-01-03") == Low(Num(1000), "2024-01-01")
      && LowestPrice(hist, Num(1200)) == Num(1000)
  {
    var hist := [Row("2024-01-01", "Pants", Num(1000), "u"), Row("2024-01-02", "Pants", Num(1000), "u")];
    assert hist[..1] == [hist[0]];
    assert [hist[0]][..0] == [];
    assert NumericPrices(hist) == [1000, 1000];
  }

  /** A history low equal to today's price: today is reported. */
  lemma TieWithTodayKeepsToday()
    ensures RunningLow([Row("2024-01-01", "Pants", Num(1000), "u")], Num(1000), "2024-01-03").date == "2024-01-03"
  {
    assert [Row("2024-01-01", "Pants", Num(1000), "u")][..0] == [];
  }

  /** An empty ledger and one URL scraped at 19.99: one row, and one entry with no previous price and the low of today. */
  lemma FirstRunOnEmptyLedger()
    ensures Reconcile([], "2024-01-01", "2023-12-31", ["u"], [Fetched("Shorts", Num(1999))])
      == Pass([Row("2024-01-01", "Shorts", Num(1999), "u")],
              [Entry("Shorts", "u", Num(1999), NA, Num(1999), "2024-01-01")])
  {
    var outs := Outcomes([], ["u"], [Fetched("Shorts", Num(1999))], "2024-01-01", "2023-12-31");
    assert outs[..0] == [];
  }
}
