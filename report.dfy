/**
 * The text of the daily e-mail (amazon_price.py:171-183): a header block
 * and five lines per report entry, built only when the report has entries.
 */
module Report {
  import opened Options
  import opened Prices
  import opened Ledger
  import opened Reconciler

  /** The header block: the date, an empty line and the title. */
  function Header(today: Date): seq<string> {
    ["Date: " + today, "", "Amazon Price Tracker Summary:\n"]
  }

  /** The five lines of one entry: name, URL, today, yesterday, and the all-time low with its date. */
  function EntryLines(e: Entry): seq<string> {
    [e.name,
     e.url,
     "Today: $" + e.todayPrice.Text(),
     "Yesterday: $" + e.yesterdayPrice.Text(),
     "All-Time Low: $" + e.lowestPrice.Text() + " on " + e.lowestDate + "\n"]
  }

  /** `body_lines` once every entry has been added. */
  function BodyLines(today: Date, report: seq<Entry>): seq<string> {
    if report == [] then Header(today)
    else BodyLines(today, report[..|report| - 1]) + EntryLines(report[|report| - 1])
  }

  /** The e-mail body, or None when nothing was recorded and no e-mail is sent. */
  function ReportBody(today: Date, report: seq<Entry>): Option<seq<string>> {
    if report == [] then None else Some(BodyLines(today, report))
  }

  /** The body assembly of amazon_price.py:171-183. */
  method BuildBody(today: Date, report: seq<Entry>) returns (body: Option<seq<string>>)
    ensures body == ReportBody(today, report)
  {
    if report == [] {
      return None;
    }
    var lines := Header(today);
    for i := 0 to |report|
      invariant lines == BodyLines(today, report[..i])
    {
      assert report[..i + 1][..i] == report[..i];
      lines := lines + EntryLines(report[i]);
    }
    assert report[..|report|] == report;
    body := Some(lines);
  }

  /**
   * The body is the header block followed by exactly five lines per entry,
   * in report order: lines 3 + 5k to 3 + 5k + 4 render entry k.
   */
  lemma {:induction false} BodyLayout(today: Date, report: seq<Entry>)
    ensures |BodyLines(today, report)| == 3 + 5 * |report|
    ensures BodyLines(today, report)[..3] == Header(today)
    ensures forall k :: 0 <= k < |report| ==>
      BodyLines(today, report)[3 + 5 * k .. 3 + 5 * k + 5] == EntryLines(report[k])
  {
    if report != [] {
      var n := |report| - 1;
      var init := report[..n];
      BodyLayout(today, init);
      var prefix := BodyLines(today, init);
      var lines := BodyLines(today, report);
      assert lines == prefix + EntryLines(report[n]);
      assert |prefix| == 3 + 5 * n;
      forall k | 0 <= k < |report|
        ensures lines[3 + 5 * k .. 3 + 5 * k + 5] == EntryLines(report[k])
      {
        if k < n {
          assert 3 + 5 * k + 5 <= |prefix| by {
            assert k + 1 <= n;
            assert 5 * (k + 1) <= 5 * n;
          }
          SliceOfPrefix(prefix, EntryLines(report[n]), 3 + 5 * k, 3 + 5 * k + 5);
          assert init[k] == report[k];
        } else {
          assert 3 + 5 * k == |prefix|;
          assert lines[|prefix|..] == EntryLines(report[n]);
        }
      }
    }
  }

  /** A slice inside the first part of a concatenation is a slice of that part. */
  lemma SliceOfPrefix(a: seq<string>, b: seq<string>, i: nat, j: nat)
    requires i <= j <= |a|
    ensures (a + b)[i..j] == a[i..j]
  {
  }
}
