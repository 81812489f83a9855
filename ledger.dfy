/**
 * The ledger: the ordered rows of the tracking CSV, the cleanup pass that
 * drops stale same-day placeholders, and the per-URL price history the rest
 * of the run consults.
 */
module Ledger {
  import opened Prices

  /** A calendar day as the ledger writes it ("YYYY-MM-DD"); only compared for equality. */
  type Date = string

  /** A product URL, the identity of a tracked product. */
  type Url = string

  /** One ledger row: the Date, Product Name, Price (USD) and URL columns. */
  datatype Row = Row(date: Date, name: string, price: Price, url: Url)

  /** A row the cleanup drops: dated today, for a tracked URL, priced "N/A". */
  predicate Stale(r: Row, today: Date, urls: seq<Url>) {
    r.date == today && r.url in urls && r.price == NA
  }

  /** The ways the tracker selects rows of the ledger. */
  datatype Selection =
    | Fresh(today: Date, urls: seq<Url>)    // every row but a stale placeholder
    | ForUrl(url: Url)                      // the rows of one product
    | Settled(today: Date, urls: seq<Url>)  // rows of another day or of an untracked URL
    | OnDay(day: Date)                      // rows dated one day
    | ValidOn(day: Date)                    // rows dated one day whose price is not "N/A"
    | Priced                                // rows whose price float() accepts

  predicate Selects(s: Selection, r: Row) {
    match s
    case Fresh(today, urls) => !Stale(r, today, urls)
    case ForUrl(url) => r.url == url
    case Settled(today, urls) => r.date != today || r.url !in urls
    case OnDay(day) => r.date == day
    case ValidOn(day) => r.date == day && r.price != NA
    case Priced => r.price.Num?
  }

  /** The selected rows, in ledger order. */
  function Filter(rows: seq<Row>, s: Selection): (kept: seq<Row>)
    ensures |kept| <= |rows|
  {
    if rows == [] then []
    else Filter(rows[..|rows| - 1], s) + (if Selects(s, rows[|rows| - 1]) then [rows[|rows| - 1]] else [])
  }

  /** The ledger written back before any product is scraped (amazon_price.py:57-61). */
  function Cleaned(rows: seq<Row>, today: Date, urls: seq<Url>): seq<Row> {
    Filter(rows, Fresh(today, urls))
  }

  /** One product's price history, in ledger order (amazon_price.py:72-80). */
  function HistoryOf(rows: seq<Row>, url: Url): seq<Row> {
    Filter(rows, ForUrl(url))
  }

  /** `price_history.get(url, [])`. */
  function Lookup(history: map<Url, seq<Row>>, url: Url): seq<Row> {
    if url in history then history[url] else []
  }

  /** Selecting from a concatenation selects from each part: the selection keeps the relative order. */
  lemma {:induction false} FilterAppend(a: seq<Row>, b: seq<Row>, s: Selection)
    ensures Filter(a + b, s) == Filter(a, s) + Filter(b, s)
  {
    if b == [] {
      assert a + b == a;
    } else {
      var b' := b[..|b| - 1];
      assert (a + b)[..|a + b| - 1] == a + b';
      assert (a + b)[|a + b| - 1] == b[|b| - 1];
      FilterAppend(a, b', s);
    }
  }

  /** A row survives a selection exactly when it is in the ledger and selected. */
  lemma {:induction false} FilterMembers(rows: seq<Row>, s: Selection)
    ensures forall r :: r in Filter(rows, s) <==> r in rows && Selects(s, r)
  {
    if rows != [] {
      var init := rows[..|rows| - 1];
      assert rows == init + [rows[|rows| - 1]];
      FilterMembers(init, s);
    }
  }

  /** A one-row ledger keeps its row exactly when the row is selected. */
  lemma FilterSingle(r: Row, s: Selection)
    ensures Filter([r], s) == if Selects(s, r) then [r] else []
  {
    assert [r][..0] == [];
  }

  /** Two selections applied one after the other may be swapped. */
  lemma {:induction false} FilterCommute(rows: seq<Row>, a: Selection, b: Selection)
    ensures Filter(Filter(rows, a), b) == Filter(Filter(rows, b), a)
  {
    if rows != [] {
      var init := rows[..|rows| - 1];
      var r := rows[|rows| - 1];
      FilterCommute(init, a, b);
      assert Filter(rows, a) == Filter(init, a) + Filter([r], a) by { FilterSingle(r, a); }
      assert Filter(rows, b) == Filter(init, b) + Filter([r], b) by { FilterSingle(r, b); }
      FilterAppend(Filter(init, a), Filter([r], a), b);
      FilterAppend(Filter(init, b), Filter([r], b), a);
      SingleCommute(r, a, b);
    }
  }

  lemma SingleCommute(r: Row, a: Selection, b: Selection)
    ensures Filter(Filter([r], a), b) == Filter(Filter([r], b), a)
  {
    FilterSingle(r, a);
    FilterSingle(r, b);
  }

  /** A selection that selects every row keeps the ledger as it is. */
  lemma {:induction false} FilterAll(rows: seq<Row>, s: Selection)
    requires forall k :: 0 <= k < |rows| ==> Selects(s, rows[k])
    ensures Filter(rows, s) == rows
  {
    if rows != [] {
      FilterAll(rows[..|rows| - 1], s);
    }
  }

  /** A selection that selects no row keeps nothing. */
  lemma {:induction false} FilterNone(rows: seq<Row>, s: Selection)
    requires forall k :: 0 <= k < |rows| ==> !Selects(s, rows[k])
    ensures Filter(rows, s) == []
  {
    if rows != [] {
      FilterNone(rows[..|rows| - 1], s);
    }
  }

  /**
   * Cleanup drops exactly the stale placeholders (a row dated today, for a
   * tracked URL, priced "N/A") and keeps every other row in order: a
   * one-row ledger keeps its row unless it is stale, and the cleanup of a
   * concatenation is the concatenation of the cleanups.
   */
  lemma CleanedExactly(a: seq<Row>, b: seq<Row>, r: Row, today: Date, urls: seq<Url>)
    ensures Cleaned([r], today, urls) == if Stale(r, today, urls) then [] else [r]
    ensures Cleaned(a + b, today, urls) == Cleaned(a, today, urls) + Cleaned(b, today, urls)
    ensures r in Cleaned(a, today, urls) <==> r in a && !Stale(r, today, urls)
  {
    assert [r][..0] == [];
    FilterAppend(a, b, Fresh(today, urls));
    FilterMembers(a, Fresh(today, urls));
  }

  /** Cleaning a cleaned ledger changes nothing. */
  lemma CleanedIdempotent(rows: seq<Row>, today: Date, urls: seq<Url>)
    ensures Cleaned(Cleaned(rows, today, urls), today, urls) == Cleaned(rows, today, urls)
  {
    var kept := Cleaned(rows, today, urls);
    FilterMembers(rows, Fresh(today, urls));
    assert forall k :: 0 <= k < |kept| ==> kept[k] in kept;
    FilterAll(kept, Fresh(today, urls));
  }

  /** The cleanup loop of amazon_price.py:57-61: `continue` past a stale row, append every other. */
  method Cleanup(rows: seq<Row>, today: Date, urls: seq<Url>) returns (kept: seq<Row>)
    ensures kept == Cleaned(rows, today, urls)
  {
    kept := [];
    for i := 0 to |rows|
      invariant kept == Cleaned(rows[..i], today, urls)
    {
      assert rows[..i + 1][..i] == rows[..i];
      var row := rows[i];
      if row.date == today && row.url in urls && row.price == NA {
        continue;
      }
      kept := kept + [row];
    }
    assert rows[..|rows|] == rows;
  }

  /**
   * The rebuild of `price_history` in amazon_price.py:71-80: one key per URL
   * that occurs in the ledger, each mapped to that URL's rows in ledger order.
   */
  method BuildHistory(rows: seq<Row>) returns (history: map<Url, seq<Row>>)
    ensures forall u :: Lookup(history, u) == HistoryOf(rows, u)
    ensures forall u :: u in history <==> exists k :: 0 <= k < |rows| && rows[k].url == u
  {
    history := map[];
    for i := 0 to |rows|
      invariant forall u :: Lookup(history, u) == HistoryOf(rows[..i], u)
      invariant forall u :: u in history <==> exists k :: 0 <= k < i && rows[k].url == u
    {
      assert rows[..i + 1][..i] == rows[..i];
      var key := rows[i].url;
      ghost var before := history;
      if key !in history {
        history := history[key := []];
      }
      history := history[key := history[key] + [rows[i]]];
      forall u
        ensures Lookup(history, u) == HistoryOf(rows[..i + 1], u)
      {
        assert Lookup(before, u) == HistoryOf(rows[..i], u);
        if u != key {
          assert Lookup(history, u) == Lookup(before, u);
        }
      }
    }
    assert rows[..|rows|] == rows;
  }
}
