/** The rows of the three database tables (`reports`, `queries`,
    `execution_history`) as values. */
module Rows {
  import opened Wrappers

  /** A `reports` row. Its integer id is not modelled: no operation reads it. */
  datatype Report = Report(title: string, url: string, date: string)

  /** A `queries` row: a query template in which `$1` marks where the
      indicators go; `queryType` and `category` are free strings. */
  datatype Query = Query(id: nat, query: string, tag: string, queryType: string, category: string)

  /** An `execution_history` row. `campaignTitle` is the only nullable
      column; `executionTime` is the clock reading, kept opaque. */
  datatype Execution = Execution(
    id: nat,
    reportUrl: string,
    queryId: nat,
    finalQuery: string,
    campaignTitle: Option<string>,
    category: string,
    executionTime: string)

  /** Some stored report has this url (`filter_by(url=...).first()` finds a row). */
  predicate UrlStored(reports: seq<Report>, url: string) {
    exists i :: 0 <= i < |reports| && reports[i].url == url
  }

  /** A url is stored in two runs of reports exactly when it is stored in
      one of them. */
  lemma UrlStoredAppend(a: seq<Report>, b: seq<Report>, url: string)
    ensures UrlStored(a + b, url) <==> UrlStored(a, url) || UrlStored(b, url)
  {
    if UrlStored(a + b, url) {
      var i :| 0 <= i < |a + b| && (a + b)[i].url == url;
      if i >= |a| {
        assert b[i - |a|].url == url;
      }
    }
    if UrlStored(a, url) {
      var i :| 0 <= i < |a| && a[i].url == url;
      assert (a + b)[i].url == url;
    }
    if UrlStored(b, url) {
      var i :| 0 <= i < |b| && b[i].url == url;
      assert (a + b)[|a| + i].url == url;
    }
  }

  /** Query ids are assigned in insertion order and stay below the next id. */
  predicate QueryIdsOrdered(qs: seq<Query>, next: nat) {
    && (forall i :: 0 <= i < |qs| ==> qs[i].id < next)
    && (forall i, j :: 0 <= i < j < |qs| ==> qs[i].id < qs[j].id)
  }

  /** Execution ids are assigned in insertion order and stay below the next id. */
  predicate ExecutionIdsOrdered(h: seq<Execution>, next: nat) {
    && (forall i :: 0 <= i < |h| ==> h[i].id < next)
    && (forall i, j :: 0 <= i < j < |h| ==> h[i].id < h[j].id)
  }
}
