/** `formatMetricLabel` (src/App.js, lines 71-87): a fixed table of twelve
    metric keys with their display labels and an identity fallback. */
module MetricFormatter {
  import opened Wrappers

  /** The label table, as (key, label) pairs in the order of the object literal. */
  function LabelTable(): seq<(string, string)> {
    [
      ("performance", "Performance Score"),
      ("ttfb", "Time to First Byte (TTFB)"),
      ("lcp", "Largest Contentful Paint (LCP)"),
      ("cls", "Cumulative Layout Shift (CLS)"),
      ("fid", "First Input Delay (FID)"),
      ("fcp", "First Contentful Paint (FCP)"),
      ("speedIndex", "Speed Index"),
      ("tbt", "Total Blocking Time (TBT)"),
      ("tti", "Time to Interactive (TTI)"),
      ("inputLatency", "Estimated Input Latency"),
      ("totalPageSize", "Total Page Size"),
      ("numRequests", "Number of Requests")
    ]
  }

  /** No key appears twice in `table`. */
  ghost predicate DistinctKeys(table: seq<(string, string)>) {
    forall i, j :: 0 <= i < j < |table| ==> table[i].0 != table[j].0
  }

  /** Every key appears once, every label is non-empty and differs from its key. */
  ghost predicate WellFormedTable(table: seq<(string, string)>) {
    && DistinctKeys(table)
    && forall i :: 0 <= i < |table| ==> table[i].1 != "" && table[i].1 != table[i].0
  }

  /** `key` is one of the own keys of `table`. */
  ghost predicate Listed(table: seq<(string, string)>, key: string) {
    exists i :: 0 <= i < |table| && table[i].0 == key
  }

  /** Own-property lookup of `key` in `table` (`labels[key]`). */
  function Lookup(table: seq<(string, string)>, key: string): (r: Option<string>)
    ensures r.None? <==> forall i :: 0 <= i < |table| ==> table[i].0 != key
    ensures r.Some? ==> exists i :: 0 <= i < |table| && table[i] == (key, r.value)
    decreases |table|
  {
    if |table| == 0 then None
    else if table[0].0 == key then Some(table[0].1)
    else Lookup(table[1..], key)
  }

  /** `labels[key] || key` for a given table: its label when there is a
      non-empty one, otherwise the key itself. It never blanks a metric and
      never invents a label that is not in the table. */
  function LabelIn(table: seq<(string, string)>, key: string): (title: string)
    ensures key != "" ==> title != ""
    ensures title == key || exists i :: 0 <= i < |table| && table[i] == (key, title)
  {
    match Lookup(table, key)
    case Some(l) => if l != "" then l else key
    case None => key
  }

  /** `formatMetricLabel`: the rule above over the fixed table. */
  function FormatMetricLabel(key: string): (title: string)
    ensures key != "" ==> title != ""
    ensures title == key || exists i :: 0 <= i < |LabelTable()| && LabelTable()[i] == (key, title)
  {
    LabelIn(LabelTable(), key)
  }

  /** In a well-formed table every listed key is shown with its own label. */
  lemma ListedKeyGetsItsLabel(table: seq<(string, string)>, i: nat)
    requires WellFormedTable(table)
    requires i < |table|
    ensures LabelIn(table, table[i].0) == table[i].1
  {
  }

  /** In a well-formed table the key itself is shown exactly when it is unlisted. */
  lemma FallbackIffUnlistedIn(table: seq<(string, string)>, key: string)
    requires WellFormedTable(table)
    ensures LabelIn(table, key) == key <==> !Listed(table, key)
  {
    if Listed(table, key) {
      var i :| 0 <= i < |table| && table[i].0 == key;
      ListedKeyGetsItsLabel(table, i);
    }
  }

  /** The fixed table has twelve entries and is well formed. */
  lemma LabelTableWellFormed()
    ensures |LabelTable()| == 12
    ensures WellFormedTable(LabelTable())
  {
  }

  /** Each of the twelve listed keys is shown with its table label. */
  lemma LabelOfListedKey(i: nat)
    requires i < |LabelTable()|
    ensures FormatMetricLabel(LabelTable()[i].0) == LabelTable()[i].1
  {
    LabelTableWellFormed();
    ListedKeyGetsItsLabel(LabelTable(), i);
  }

  /** A key is shown unchanged if and only if it is not one of the twelve. */
  lemma FallbackIffUnlisted(key: string)
    ensures FormatMetricLabel(key) == key <==> !Listed(LabelTable(), key)
  {
    LabelTableWellFormed();
    FallbackIffUnlistedIn(LabelTable(), key);
  }
}
