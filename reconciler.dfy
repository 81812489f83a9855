/**
 * The daily pass over the tracked URLs (amazon_price.py:82-165): each URL
 * is skipped when today already holds a valid price for it, or gets one new
 * row dated today and one report entry.  The pass is given twice: as the
 * class DailyRun, whose methods change the written ledger and the report
 * step by step as the script does, and as the function Reconcile on values,
 * about which the properties of the pass are proved.
 */
module Reconciler {
  import opened Prices
  import opened Ledger
  import opened Analytics

  /** What scraping one URL yields: the product name and the price cell, or an exception. */
  datatype Fetch = Fetched(name: string, price: Price) | Failed

  /** One `daily_report` entry. */
  datatype Entry = Entry(
    name: string,
    url: Url,
    todayPrice: Price,
    yesterdayPrice: Price,
    lowestPrice: Price,
    lowestDate: Date)

  /** What the pass does with one tracked URL: skip it, or write one row and report one entry. */
  datatype Outcome = Skipped | Appended(row: Row, entry: Entry)

  /** The body of the URL loop, given that URL's history from the cleaned ledger. */
  function UrlOutcome(hist: seq<Row>, url: Url, fetch: Fetch, today: Date, yesterday: Date): Outcome {
    if RecordedOn(hist, today) then Skipped
    else
      match fetch
      case Failed =>
        Appended(Row(today, "ERROR", NA, url), Entry("ERROR", url, NA, NA, NA, today))
      case Fetched(name, price) =>
        Appended(Row(today, name, price, url),
                 Entry(name, url, price, PreviousPrice(hist, yesterday),
                       LowestPrice(hist, price), RunningLow(hist, price, today).date))
  }

  /**
   * The outcome for every tracked URL, in list order.  Every URL is judged
   * against the history of the cleaned ledger: rows the pass itself writes
   * do not enter `price_history`.
   */
  function Outcomes(base: seq<Row>, urls: seq<Url>, fetches: seq<Fetch>, today: Date, yesterday: Date): seq<Outcome>
    requires |fetches| == |urls|
  {
    seq(|urls|, i requires 0 <= i < |urls| =>
      UrlOutcome(HistoryOf(base, urls[i]), urls[i], fetches[i], today, yesterday))
  }

  function OutcomeRows(o: Outcome): seq<Row> {
    if o.Appended? then [o.row] else []
  }

  function OutcomeEntries(o: Outcome): seq<Entry> {
    if o.Appended? then [o.entry] else []
  }

  /** The rows written after the cleaned ledger, in URL order. */
  function RowsOf(outs: seq<Outcome>): seq<Row> {
    if outs == [] then [] else RowsOf(outs[..|outs| - 1]) + OutcomeRows(outs[|outs| - 1])
  }

  /** The `daily_report` entries, in URL order. */
  function EntriesOf(outs: seq<Outcome>): seq<Entry> {
    if outs == [] then [] else EntriesOf(outs[..|outs| - 1]) + OutcomeEntries(outs[|outs| - 1])
  }

  /** What one run leaves behind: the ledger as written and the report entries. */
  datatype Pass = Pass(ledger: seq<Row>, report: seq<Entry>)

  /** One run on values: cleanup, then the URL loop over the cleaned ledger's history. */
  function Reconcile(existing: seq<Row>, today: Date, yesterday: Date, urls: seq<Url>, fetches: seq<Fetch>): Pass
    requires |fetches| == |urls|
  {
    var base := Cleaned(existing, today, urls);
    var outs := Outcomes(base, urls, fetches, today, yesterday);
    Pass(base + RowsOf(outs), EntriesOf(outs))
  }

  /** No two tracked URLs are the same. */
  predicate Distinct(urls: seq<Url>) {
    forall i, j :: 0 <= i < j < |urls| ==> urls[i] != urls[j]
  }

  /**
   * One run of the script: the cleaned ledger it writes back, the history it
   * rebuilds from it, and the rows and report entries it adds URL by URL.
   */
  class DailyRun {
    const today: Date
    const yesterday: Date
    const urls: seq<Url>
    /** The cleaned ledger, from which `history` was built. */
    ghost const base: seq<Row>
    /** `price_history`. */
    const history: map<Url, seq<Row>>
    /** The rows written to the CSV so far. */
    var ledger: seq<Row>
    /** `daily_report`. */
    var report: seq<Entry>

    ghost predicate Valid() {
      forall u :: Lookup(history, u) == HistoryOf(base, u)
    }

    /** Load, clean and write back the ledger, then rebuild the history (amazon_price.py:52-80). */
    constructor (existing: seq<Row>, today: Date, yesterday: Date, urls: seq<Url>)
      ensures this.today == today && this.yesterday == yesterday && this.urls == urls
      ensures base == Cleaned(existing, today, urls) && Valid()
      ensures ledger == base && report == []
    {
      this.today := today;
      this.yesterday := yesterday;
      this.urls := urls;
      var cleaned := Cleanup(existing, today, urls);
      var h := BuildHistory(cleaned);
      base := cleaned;
      history := h;
      ledger := cleaned;
      report := [];
    }

    /** One iteration of the URL loop (amazon_price.py:84-165). */
    method Visit(url: Url, fetch: Fetch)
      requires Valid()
      modifies this
      ensures ledger == old(ledger) + OutcomeRows(UrlOutcome(HistoryOf(base, url), url, fetch, today, yesterday))
      ensures report == old(report) + OutcomeEntries(UrlOutcome(HistoryOf(base, url), url, fetch, today, yesterday))
    {
      var hist := Lookup(history, url);
      var recorded := FindRecorded(hist, today);
      if recorded {
        return;
      }
      match fetch
      case Failed =>
        ledger := ledger + [Row(today, "ERROR", NA, url)];
        report := report + [Entry("ERROR", url, NA, NA, NA, today)];
      case Fetched(name, price) =>
        ledger := ledger + [Row(today, name, price, url)];
        var previous, lowest, lowestDate := Analyze(hist, today, yesterday, price);
        report := report + [Entry(name, url, price, previous, lowest, lowestDate)];
    }

    /** The URL loop (amazon_price.py:82-165), with `fetches[i]` the scrape of `urls[i]`. */
    method VisitAll(fetches: seq<Fetch>)
      requires Valid() && |fetches| == |urls|
      modifies this
      ensures ledger == old(ledger) + RowsOf(Outcomes(base, urls, fetches, today, yesterday))
      ensures report == old(report) + EntriesOf(Outcomes(base, urls, fetches, today, yesterday))
    {
      ghost var outs := Outcomes(base, urls, fetches, today, yesterday);
      for i := 0 to |urls|
        invariant ledger == old(ledger) + RowsOf(outs[..i])
        invariant report == old(report) + EntriesOf(outs[..i])
      {
        assert outs[i] == UrlOutcome(HistoryOf(base, urls[i]), urls[i], fetches[i], today, yesterday);
        Visit(urls[i], fetches[i]);
        PrefixStep(outs, i);
      }
      assert outs[..|urls|] == outs;
    }
  }

  /** The rows and entries of the first i + 1 outcomes extend those of the first i. */
  lemma PrefixStep(outs: seq<Outcome>, i: nat)
    requires i < |outs|
    ensures RowsOf(outs[..i + 1]) == RowsOf(outs[..i]) + OutcomeRows(outs[i])
    ensures EntriesOf(outs[..i + 1]) == EntriesOf(outs[..i]) + OutcomeEntries(outs[i])
  {
    assert outs[..i + 1][..i] == outs[..i];
  }

  /** A written row is the row of some appended outcome. */
  lemma {:induction false} RowsOfMembers(outs: seq<Outcome>)
    ensures forall r :: r in RowsOf(outs) <==> exists i :: 0 <= i < |outs| && outs[i].Appended? && outs[i].row == r
  {
    if outs != [] {
      var init := outs[..|outs| - 1];
      RowsOfMembers(init);
      assert forall i :: 0 <= i < |init| ==> init[i] == outs[i];
    }
  }

  /** When every URL is skipped nothing is written and nothing is reported. */
  lemma {:induction false} AllSkipped(outs: seq<Outcome>)
    requires forall i :: 0 <= i < |outs| ==> outs[i].Skipped?
    ensures RowsOf(outs) == [] && EntriesOf(outs) == []
  {
    if outs != [] {
      AllSkipped(outs[..|outs| - 1]);
    }
  }

  /** With distinct URLs, the rows written for a URL are those of its own outcome: one row unless it is skipped. */
  lemma RowsPerUrl(outs: seq<Outcome>, urls: seq<Url>, u: Url)
    requires |outs| == |urls| && Distinct(urls)
    requires forall i :: 0 <= i < |outs| && outs[i].Appended? ==> outs[i].row.url == urls[i]
    ensures forall i :: 0 <= i < |urls| ==> HistoryOf(RowsOf(outs), urls[i]) == OutcomeRows(outs[i])
    ensures u !in urls ==> HistoryOf(RowsOf(outs), u) == []
  {
    RowsForTracked(outs, urls);
    if u !in urls {
      RowsForUntracked(outs, urls, u);
    }
  }

  lemma {:induction false} RowsForTracked(outs: seq<Outcome>, urls: seq<Url>)
    requires |outs| == |urls| && Distinct(urls)
    requires forall i :: 0 <= i < |outs| && outs[i].Appended? ==> outs[i].row.url == urls[i]
    ensures forall i :: 0 <= i < |urls| ==> HistoryOf(RowsOf(outs), urls[i]) == OutcomeRows(outs[i])
  {
    if outs != [] {
      var n := |outs| - 1;
      var init, iurls := outs[..n], urls[..n];
      assert forall i :: 0 <= i < n ==> init[i] == outs[i] && iurls[i] == urls[i];
      RowsForTracked(init, iurls);
      assert urls[n] !in iurls;
      RowsForUntracked(init, iurls, urls[n]);
      forall i | 0 <= i < |urls|
        ensures HistoryOf(RowsOf(outs), urls[i]) == OutcomeRows(outs[i])
      {
        RowsPerUrlStep(outs, urls, i);
      }
    }
  }

  /** No row is written for a URL that is not tracked. */
  lemma {:induction false} RowsForUntracked(outs: seq<Outcome>, urls: seq<Url>, u: Url)
    requires |outs| == |urls| && u !in urls
    requires forall i :: 0 <= i < |outs| && outs[i].Appended? ==> outs[i].row.url == urls[i]
    ensures HistoryOf(RowsOf(outs), u) == []
  {
    if outs != [] {
      var n := |outs| - 1;
      var init, iurls := outs[..n], urls[..n];
      assert forall i :: 0 <= i < n ==> init[i] == outs[i] && iurls[i] == urls[i];
      RowsForUntracked(init, iurls, u);
      LastRowFor(outs, u);
    }
  }

  lemma RowsPerUrlStep(outs: seq<Outcome>, urls: seq<Url>, i: nat)
    requires |outs| == |urls| && Distinct(urls) && i < |urls|
    requires forall j :: 0 <= j < |outs| && outs[j].Appended? ==> outs[j].row.url == urls[j]
    requires forall j :: 0 <= j < |urls| - 1 ==> HistoryOf(RowsOf(outs[..|outs| - 1]), urls[j]) == OutcomeRows(outs[j])
    requires HistoryOf(RowsOf(outs[..|outs| - 1]), urls[|urls| - 1]) == []
    ensures HistoryOf(RowsOf(outs), urls[i]) == OutcomeRows(outs[i])
  {
    var n := |outs| - 1;
    var init := outs[..n];
    var v := urls[i];
    var lastRows := if outs[n].Appended? && outs[n].row.url == v then [outs[n].row] else [];
    LastRowFor(outs, v);
    assert HistoryOf(RowsOf(outs), v) == HistoryOf(RowsOf(init), v) + lastRows;
    if i < n {
      assert v != urls[n];
      assert lastRows == [];
      assert HistoryOf(RowsOf(init), v) == OutcomeRows(outs[i]);
    } else {
      assert lastRows == OutcomeRows(outs[n]);
    }
  }

  /** The rows of one URL written for a list of outcomes, split at the last outcome. */
  lemma LastRowFor(outs: seq<Outcome>, v: Url)
    requires outs != []
    ensures HistoryOf(RowsOf(outs), v) == HistoryOf(RowsOf(outs[..|outs| - 1]), v) +
      (if outs[|outs| - 1].Appended? && outs[|outs| - 1].row.url == v then [outs[|outs| - 1].row] else [])
  {
    var last := outs[|outs| - 1];
    FilterAppend(RowsOf(outs[..|outs| - 1]), OutcomeRows(last), ForUrl(v));
    if last.Appended? {
      FilterSingle(last.row, ForUrl(v));
    }
  }

  /** Selections that never pick a stale placeholder see the same rows before and after cleanup. */
  lemma CleanupInvisible(rows: seq<Row>, today: Date, urls: seq<Url>, a: Selection, b: Selection)
    requires forall r :: Selects(b, r) ==> !Stale(r, today, urls)
    ensures Filter(Filter(Cleaned(rows, today, urls), a), b) == Filter(Filter(rows, a), b)
  {
    var f := Fresh(today, urls);
    FilterCommute(rows, f, a);
    FilterCommute(Filter(rows, a), f, b);
    var g := Filter(Filter(rows, a), b);
    FilterMembers(Filter(rows, a), b);
    assert forall k :: 0 <= k < |g| ==> g[k] in g;
    FilterAll(g, f);
  }

  /** Cleanup never changes whether today already holds a valid price for a URL. */
  lemma RecordedSurvivesCleanup(rows: seq<Row>, today: Date, urls: seq<Url>, u: Url)
    ensures RecordedOn(HistoryOf(Cleaned(rows, today, urls), u), today) == RecordedOn(HistoryOf(rows, u), today)
  {
    CleanupInvisible(rows, today, urls, ForUrl(u), ValidOn(today));
    RecordedOnValidRows(HistoryOf(Cleaned(rows, today, urls), u), today);
    RecordedOnValidRows(HistoryOf(rows, u), today);
  }

  /**
   * The outcome for the i-th tracked URL, stated against the ledger as it
   * was before cleanup: skipped exactly when its history has a row of today
   * whose price is not "N/A" (whatever that text); otherwise one row dated
   * today, either the sentinel row ("ERROR", "N/A") with an all-"N/A" entry
   * reported on today, or the scraped name and price with the analytics of
   * the product's history.
   */
  lemma OutcomeSpec(existing: seq<Row>, today: Date, yesterday: Date, urls: seq<Url>, fetches: seq<Fetch>, i: nat)
    requires |fetches| == |urls| && i < |urls|
    ensures var outs := Outcomes(Cleaned(existing, today, urls), urls, fetches, today, yesterday);
      var hist := HistoryOf(existing, urls[i]);
      |outs| == |urls|
      && (outs[i].Skipped? <==> RecordedOn(hist, today))
      && (!RecordedOn(hist, today) && fetches[i].Failed? ==>
            outs[i] == Appended(Row(today, "ERROR", NA, urls[i]), Entry("ERROR", urls[i], NA, NA, NA, today)))
      && (!RecordedOn(hist, today) && fetches[i].Fetched? ==>
            var p := fetches[i].price;
            outs[i] == Appended(Row(today, fetches[i].name, p, urls[i]),
                                Entry(fetches[i].name, urls[i], p, PreviousPrice(hist, yesterday),
                                      LowestPrice(hist, p), RunningLow(hist, p, today).date)))
  {
    var u := urls[i];
    var cleanHist := HistoryOf(Cleaned(existing, today, urls), u);
    var hist := HistoryOf(existing, u);
    RecordedSurvivesCleanup(existing, today, urls, u);
    if fetches[i].Fetched? {
      var p := fetches[i].price;
      CleanupInvisible(existing, today, urls, ForUrl(u), Priced);
      OnlyPricedRowsMatter(cleanHist, today, yesterday, p);
      OnlyPricedRowsMatter(hist, today, yesterday, p);
    }
  }

  /**
   * The written ledger is the cleaned ledger followed by at most one row per
   * tracked URL, each dated today and for a tracked URL.
   */
  lemma LedgerShape(existing: seq<Row>, today: Date, yesterday: Date, urls: seq<Url>, fetches: seq<Fetch>)
    requires |fetches| == |urls|
    ensures var p := Reconcile(existing, today, yesterday, urls, fetches);
      var base := Cleaned(existing, today, urls);
      |base| <= |p.ledger| <= |base| + |urls|
      && p.ledger[..|base|] == base
      && forall k :: |base| <= k < |p.ledger| ==> p.ledger[k].date == today && p.ledger[k].url in urls
  {
    var base := Cleaned(existing, today, urls);
    var outs := Outcomes(base, urls, fetches, today, yesterday);
    var added := RowsOf(outs);
    AddedRowsOfToday(base, today, yesterday, urls, fetches);
    RowsOfLength(outs);
    AppendedOfToday(base, added, today, urls);
  }

  lemma AppendedOfToday(base: seq<Row>, added: seq<Row>, today: Date, urls: seq<Url>)
    requires forall k :: 0 <= k < |added| ==> added[k].date == today && added[k].url in urls
    ensures (base + added)[..|base|] == base
    ensures forall k :: |base| <= k < |base + added| ==> (base + added)[k].date == today && (base + added)[k].url in urls
  {
    forall k | |base| <= k < |base + added|
      ensures (base + added)[k].date == today && (base + added)[k].url in urls
    {
      assert (base + added)[k] == added[k - |base|];
    }
  }

  lemma {:induction false} RowsOfLength(outs: seq<Outcome>)
    ensures |RowsOf(outs)| <= |outs|
  {
    if outs != [] {
      RowsOfLength(outs[..|outs| - 1]);
    }
  }

  /** Every row the URL loop writes is dated today and belongs to a tracked URL. */
  lemma AddedRowsOfToday(base: seq<Row>, today: Date, yesterday: Date, urls: seq<Url>, fetches: seq<Fetch>)
    requires |fetches| == |urls|
    ensures forall k :: 0 <= k < |RowsOf(Outcomes(base, urls, fetches, today, yesterday))| ==>
      RowsOf(Outcomes(base, urls, fetches, today, yesterday))[k].date == today
      && RowsOf(Outcomes(base, urls, fetches, today, yesterday))[k].url in urls
  {
    var outs := Outcomes(base, urls, fetches, today, yesterday);
    forall i | 0 <= i < |outs| && outs[i].Appended?
      ensures outs[i].row.date == today && outs[i].row.url in urls
    {
      assert outs[i].row.url == urls[i];
    }
    RowsOfRowsOn(outs, today, urls);
  }

  lemma {:induction false} RowsOfRowsOn(outs: seq<Outcome>, today: Date, urls: seq<Url>)
    requires forall i :: 0 <= i < |outs| && outs[i].Appended? ==> outs[i].row.date == today && outs[i].row.url in urls
    ensures forall k :: 0 <= k < |RowsOf(outs)| ==> RowsOf(outs)[k].date == today && RowsOf(outs)[k].url in urls
  {
    if outs != [] {
      var init := outs[..|outs| - 1];
      assert forall i :: 0 <= i < |init| ==> init[i] == outs[i];
      RowsOfRowsOn(init, today, urls);
    }
  }

  /**
   * Rows dated another day or belonging to an untracked URL are neither
   * removed nor changed nor reordered by a run, and no such row is added.
   */
  lemma SettledRowsKept(existing: seq<Row>, today: Date, yesterday: Date, urls: seq<Url>, fetches: seq<Fetch>)
    requires |fetches| == |urls|
    ensures var p := Reconcile(existing, today, yesterday, urls, fetches);
      Filter(p.ledger, Settled(today, urls)) == Filter(existing, Settled(today, urls))
  {
    var s := Settled(today, urls);
    var base := Cleaned(existing, today, urls);
    var added := RowsOf(Outcomes(base, urls, fetches, today, yesterday));
    FilterAppend(base, added, s);
    AddedRowsOfToday(base, today, yesterday, urls, fetches);
    forall k | 0 <= k < |added|
      ensures !Selects(s, added[k])
    {
      assert added[k].date == today && added[k].url in urls;
    }
    FilterNone(added, s);
    CleanupKeepsSettled(existing, today, urls);
  }

  /** Cleanup keeps every row of another day or of an untracked URL. */
  lemma CleanupKeepsSettled(existing: seq<Row>, today: Date, urls: seq<Url>)
    ensures Filter(Cleaned(existing, today, urls), Settled(today, urls)) == Filter(existing, Settled(today, urls))
  {
    var s := Settled(today, urls);
    FilterCommute(existing, Fresh(today, urls), s);
    var g := Filter(existing, s);
    FilterMembers(existing, s);
    forall k | 0 <= k < |g|
      ensures Selects(Fresh(today, urls), g[k])
    {
      assert g[k] in g;
    }
    FilterAll(g, Fresh(today, urls));
  }

  /**
   * The history of a URL after a run: its history in the cleaned ledger,
   * followed, for a tracked URL when the URLs are distinct, by the row of
   * its own outcome, and by nothing for an untracked URL.
   */
  lemma HistoryAfterRun(existing: seq<Row>, today: Date, yesterday: Date, urls: seq<Url>, fetches: seq<Fetch>, u: Url)
    requires |fetches| == |urls| && Distinct(urls)
    ensures var base := Cleaned(existing, today, urls);
      var outs := Outcomes(base, urls, fetches, today, yesterday);
      var p := Reconcile(existing, today, yesterday, urls, fetches);
      (forall i :: 0 <= i < |urls| && urls[i] == u ==> HistoryOf(p.ledger, u) == HistoryOf(base, u) + OutcomeRows(outs[i]))
      && (u !in urls ==> HistoryOf(p.ledger, u) == HistoryOf(base, u))
  {
    var base := Cleaned(existing, today, urls);
    var outs := Outcomes(base, urls, fetches, today, yesterday);
    FilterAppend(base, RowsOf(outs), ForUrl(u));
    RowsPerUrl(outs, urls, u);
  }

  /** A tracked URL without a valid price of today has no row of today left after cleanup. */
  lemma NoRowOfTodayLeft(existing: seq<Row>, today: Date, urls: seq<Url>, u: Url)
    requires u in urls && !RecordedOn(HistoryOf(existing, u), today)
    ensures Filter(HistoryOf(Cleaned(existing, today, urls), u), OnDay(today)) == []
  {
    var base := Cleaned(existing, today, urls);
    var h := HistoryOf(base, u);
    RecordedSurvivesCleanup(existing, today, urls, u);
    FilterMembers(base, ForUrl(u));
    FilterMembers(existing, Fresh(today, urls));
    forall k | 0 <= k < |h|
      ensures h[k].date == today ==> h[k].price != NA
    {
      assert h[k] in h;
    }
    FilterNone(h, OnDay(today));
  }

  /**
   * With distinct URLs, a tracked URL whose day held no valid price ends
   * the run with exactly one row dated today: any stale placeholder has been
   * replaced by the new row rather than joined by it.
   */
  lemma PlaceholderReplaced(existing: seq<Row>, today: Date, yesterday: Date, urls: seq<Url>, fetches: seq<Fetch>, i: nat)
    requires |fetches| == |urls| && i < |urls| && Distinct(urls)
    requires !RecordedOn(HistoryOf(existing, urls[i]), today)
    ensures var p := Reconcile(existing, today, yesterday, urls, fetches);
      |Filter(HistoryOf(p.ledger, urls[i]), OnDay(today))| == 1
  {
    var u := urls[i];
    var base := Cleaned(existing, today, urls);
    var outs := Outcomes(base, urls, fetches, today, yesterday);
    HistoryAfterRun(existing, today, yesterday, urls, fetches, u);
    RecordedSurvivesCleanup(existing, today, urls, u);
    assert outs[i].Appended? && outs[i].row.date == today;
    assert OutcomeRows(outs[i]) == [outs[i].row];
    NoRowOfTodayLeft(existing, today, urls, u);
    OneRowOfToday(HistoryOf(base, u), outs[i].row, today);
  }

  /** A history without a row of today gains exactly one by appending a row of today. */
  lemma OneRowOfToday(h: seq<Row>, row: Row, today: Date)
    requires Filter(h, OnDay(today)) == [] && row.date == today
    ensures |Filter(h + [row], OnDay(today))| == 1
  {
    FilterAppend(h, [row], OnDay(today));
    FilterSingle(row, OnDay(today));
  }

  /**
   * With distinct URLs, a run never creates a second valid price for a
   * product on today: if the ledger held at most one row of today with a
   * price other than "N/A" for a URL, so does the written ledger.
   */
  lemma AtMostOneValidToday(existing: seq<Row>, today: Date, yesterday: Date, urls: seq<Url>, fetches: seq<Fetch>, u: Url)
    requires |fetches| == |urls| && Distinct(urls)
    requires |Filter(HistoryOf(existing, u), ValidOn(today))| <= 1
    ensures var p := Reconcile(existing, today, yesterday, urls, fetches);
      |Filter(HistoryOf(p.ledger, u), ValidOn(today))| <= 1
  {
    var base := Cleaned(existing, today, urls);
    var outs := Outcomes(base, urls, fetches, today, yesterday);
    var p := Reconcile(existing, today, yesterday, urls, fetches);
    var before := Filter(HistoryOf(existing, u), ValidOn(today));
    CleanupInvisible(existing, today, urls, ForUrl(u), ValidOn(today));
    assert Filter(HistoryOf(base, u), ValidOn(today)) == before;
    HistoryAfterRun(existing, today, yesterday, urls, fetches, u);
    if u in urls {
      var i :| 0 <= i < |urls| && urls[i] == u;
      var mine := OutcomeRows(outs[i]);
      assert HistoryOf(p.ledger, u) == HistoryOf(base, u) + mine;
      FilterAppend(HistoryOf(base, u), mine, ValidOn(today));
      OutcomeSpec(existing, today, yesterday, urls, fetches, i);
      RecordedOnValidRows(HistoryOf(existing, u), today);
      if outs[i].Skipped? {
        assert mine == [];
      } else {
        assert before == [];
      }
    }
  }

  /**
   * A run on a ledger that already holds a valid price of today for every
   * tracked URL skips every URL: it writes back the cleaned ledger, adds no
   * row and reports nothing.
   */
  lemma RecordedRunSkipsAll(ledger: seq<Row>, today: Date, yesterday: Date, urls: seq<Url>, fetches: seq<Fetch>)
    requires |fetches| == |urls|
    requires forall u :: u in urls ==> RecordedOn(HistoryOf(ledger, u), today)
    ensures Reconcile(ledger, today, yesterday, urls, fetches) == Pass(Cleaned(ledger, today, urls), [])
  {
    var outs := Outcomes(Cleaned(ledger, today, urls), urls, fetches, today, yesterday);
    forall i | 0 <= i < |outs|
      ensures outs[i].Skipped?
    {
      RecordedSurvivesCleanup(ledger, today, urls, urls[i]);
    }
    AllSkipped(outs);
  }

  /**
   * Idempotence: when a run left a valid price of today for every tracked
   * URL (each URL was skipped, or scraped with a price other than "N/A"),
   * a second run on the same day, whatever it scrapes, leaves the ledger
   * exactly as the first run wrote it and reports nothing.
   */
  lemma SecondRunIsNoOp(existing: seq<Row>, today: Date, yesterday: Date, urls: seq<Url>,
                        first: seq<Fetch>, second: seq<Fetch>)
    requires |first| == |urls| && |second| == |urls|
    requires forall i :: 0 <= i < |urls| ==>
      RecordedOn(HistoryOf(existing, urls[i]), today) || (first[i].Fetched? && first[i].price != NA)
    ensures var p := Reconcile(existing, today, yesterday, urls, first);
      Reconcile(p.ledger, today, yesterday, urls, second) == Pass(p.ledger, [])
  {
    var p := Reconcile(existing, today, yesterday, urls, first);
    FirstRunLeavesNoPlaceholder(existing, today, yesterday, urls, first);
    forall u | u in urls
      ensures RecordedOn(HistoryOf(p.ledger, u), today)
    {
      var i :| 0 <= i < |urls| && urls[i] == u;
      FirstRunRecords(existing, today, yesterday, urls, first, i);
    }
    RecordedRunSkipsAll(p.ledger, today, yesterday, urls, second);
  }

  /** A run whose every new row has a price other than "N/A" leaves no stale placeholder behind. */
  lemma FirstRunLeavesNoPlaceholder(existing: seq<Row>, today: Date, yesterday: Date, urls: seq<Url>, first: seq<Fetch>)
    requires |first| == |urls|
    requires forall i :: 0 <= i < |urls| ==>
      RecordedOn(HistoryOf(existing, urls[i]), today) || (first[i].Fetched? && first[i].price != NA)
    ensures var p := Reconcile(existing, today, yesterday, urls, first);
      Cleaned(p.ledger, today, urls) == p.ledger
  {
    var base := Cleaned(existing, today, urls);
    var outs := Outcomes(base, urls, first, today, yesterday);
    var added := RowsOf(outs);
    RowsOfMembers(outs);
    CleanedIdempotent(existing, today, urls);
    FilterAppend(base, added, Fresh(today, urls));
    forall k | 0 <= k < |added|
      ensures Selects(Fresh(today, urls), added[k])
    {
      assert added[k] in added;
      var i :| 0 <= i < |outs| && outs[i].Appended? && outs[i].row == added[k];
      OutcomeSpec(existing, today, yesterday, urls, first, i);
    }
    FilterAll(added, Fresh(today, urls));
  }

  /** After such a run the i-th tracked URL has a valid price of today. */
  lemma FirstRunRecords(existing: seq<Row>, today: Date, yesterday: Date, urls: seq<Url>, first: seq<Fetch>, i: nat)
    requires |first| == |urls| && i < |urls|
    requires RecordedOn(HistoryOf(existing, urls[i]), today) || (first[i].Fetched? && first[i].price != NA)
    ensures var p := Reconcile(existing, today, yesterday, urls, first);
      RecordedOn(HistoryOf(p.ledger, urls[i]), today)
  {
    var u := urls[i];
    var base := Cleaned(existing, today, urls);
    var outs := Outcomes(base, urls, first, today, yesterday);
    var added := RowsOf(outs);
    var p := Reconcile(existing, today, yesterday, urls, first);
    assert p.ledger == base + added;
    OutcomeSpec(existing, today, yesterday, urls, first, i);
    FilterAppend(base, added, ForUrl(u));
    var h := HistoryOf(p.ledger, u);
    if RecordedOn(HistoryOf(existing, u), today) {
      RecordedSurvivesCleanup(existing, today, urls, u);
      var k :| 0 <= k < |HistoryOf(base, u)| && HistoryOf(base, u)[k].date == today && HistoryOf(base, u)[k].price != NA;
      assert h[k] == HistoryOf(base, u)[k];
    } else {
      var r := outs[i].row;
      RowsOfMembers(outs);
      assert r in added;
      FilterMembers(p.ledger, ForUrl(u));
      assert r in h;
      var k :| 0 <= k < |h| && h[k] == r;
    }
  }
}
