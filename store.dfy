/** The SQLite database seen through its three tables, and the request
    handlers that change them: the report sweep, storing, importing and
    updating query templates, executing templates against an advisory, and
    deleting execution history. */
module Store {
  import opened Wrappers
  import opened Text
  import opened Rows
  import opened Scraper
  import opened Resolution

  /** The JSON keys every imported entry must carry. */
  predicate WellFormedEntry(entry: map<string, string>) {
    "query" in entry && "tag" in entry && "query_type" in entry && "category" in entry
  }

  /** An entry is well formed exactly when its keys include the four
      columns an imported template needs. */
  lemma WellFormedEntryKeys(entry: map<string, string>)
    ensures WellFormedEntry(entry) <==> {"query", "tag", "query_type", "category"} <= entry.Keys
  {
  }

  /** The template an imported entry becomes. */
  function EntryQuery(entry: map<string, string>, id: nat): (r: Query)
    requires WellFormedEntry(entry)
    ensures r.id == id && r.query == entry["query"] && r.tag == entry["tag"]
    ensures r.queryType == entry["query_type"] && r.category == entry["category"]
  {
    Query(id, entry["query"], entry["tag"], entry["query_type"], entry["category"])
  }

  /** The history rows recorded for a run of results, one per result,
      numbered from `firstId`. Each row is committed on its own, so each
      carries its own clock reading: `clock(k)` is the reading taken when
      the `k`-th row of the run is inserted. */
  function ExecutionRows(res: seq<Resolved>, url: string, campaignTitle: Option<string>, clock: nat -> string, firstId: nat): (r: seq<Execution>)
    ensures |r| == |res|
  {
    if res == [] then []
    else
      var x := res[|res| - 1];
      ExecutionRows(res[..|res| - 1], url, campaignTitle, clock, firstId)
      + [Execution(firstId + |res| - 1, url, x.queryId, x.finalQuery, campaignTitle, x.category, clock(|res| - 1))]
  }

  /** Row `k` records result `k` under id `firstId + k`, with the advisory
      url, its title and the clock reading of the `k`-th insert. */
  lemma {:induction false} ExecutionRowsAt(res: seq<Resolved>, url: string, campaignTitle: Option<string>, clock: nat -> string, firstId: nat)
    ensures forall k :: 0 <= k < |res| ==>
      ExecutionRows(res, url, campaignTitle, clock, firstId)[k]
      == Execution(firstId + k, url, res[k].queryId, res[k].finalQuery, campaignTitle, res[k].category, clock(k))
  {
    if res != [] {
      ExecutionRowsAt(res[..|res| - 1], url, campaignTitle, clock, firstId);
    }
  }

  /** Numbering a run of results is compatible with appending one more. */
  lemma ExecutionRowsSnoc(res: seq<Resolved>, x: Resolved, url: string, campaignTitle: Option<string>, clock: nat -> string, firstId: nat)
    ensures ExecutionRows(res + [x], url, campaignTitle, clock, firstId)
         == ExecutionRows(res, url, campaignTitle, clock, firstId)
            + [Execution(firstId + |res|, url, x.queryId, x.finalQuery, campaignTitle, x.category, clock(|res|))]
  {
    assert (res + [x])[..|res|] == res;
  }

  /** A row that takes the next id keeps the history ordered by id. */
  lemma AppendExecutionOrdered(h: seq<Execution>, next: nat, e: Execution)
    requires ExecutionIdsOrdered(h, next) && e.id == next
    ensures ExecutionIdsOrdered(h + [e], next + 1)
  {
  }

  /** Removing the row at `i` keeps the history ordered, and since ids are
      unique it removes exactly the rows carrying that row's id. */
  lemma RemoveExecution(h: seq<Execution>, next: nat, i: nat)
    requires ExecutionIdsOrdered(h, next) && i < |h|
    ensures ExecutionIdsOrdered(h[..i] + h[i + 1..], next)
    ensures forall e :: e in h[..i] + h[i + 1..] <==> e in h && e.id != h[i].id
  {
    RemovedKeepsOrder(h, next, i);
    RemovedMembers(h, next, i);
  }

  /** Position `j` of the history without row `i` holds the row that was at
      `j` before `i` and at `j + 1` after it. */
  lemma RemovedAt(h: seq<Execution>, i: nat)
    requires i < |h|
    ensures |h[..i] + h[i + 1..]| == |h| - 1
    ensures forall j :: 0 <= j < i ==> (h[..i] + h[i + 1..])[j] == h[j]
    ensures forall j :: i < j < |h| ==> (h[..i] + h[i + 1..])[j - 1] == h[j]
  {
  }

  /** Dropping a row from an ordered history leaves it ordered. */
  lemma RemovedKeepsOrder(h: seq<Execution>, next: nat, i: nat)
    requires ExecutionIdsOrdered(h, next) && i < |h|
    ensures ExecutionIdsOrdered(h[..i] + h[i + 1..], next)
  {
    var r := h[..i] + h[i + 1..];
    RemovedAt(h, i);
    forall j, k | 0 <= j < k < |r| ensures r[j].id < r[k].id {
      if k < i {
        assert r[j] == h[j] && r[k] == h[k];
      } else if j < i {
        assert r[j] == h[j] && r[k] == h[k + 1];
      } else {
        assert r[j] == h[j + 1] && r[k] == h[k + 1];
      }
    }
  }

  /** Dropping a row drops exactly the rows with its id, ids being unique. */
  lemma RemovedMembers(h: seq<Execution>, next: nat, i: nat)
    requires ExecutionIdsOrdered(h, next) && i < |h|
    ensures forall e :: e in h[..i] + h[i + 1..] <==> e in h && e.id != h[i].id
  {
    var r := h[..i] + h[i + 1..];
    RemovedAt(h, i);
    forall e | e in r ensures e in h && e.id != h[i].id {
      var j :| 0 <= j < |r| && r[j] == e;
      if j < i {
        assert e == h[j] && h[j].id < h[i].id;
      } else {
        assert e == h[j + 1] && h[i].id < h[j + 1].id;
      }
    }
    forall e | e in h && e.id != h[i].id ensures e in r {
      var j :| 0 <= j < |h| && h[j] == e;
      if j < i { assert r[j] == e; } else { assert j != i && r[j - 1] == e; }
    }
  }

  /** Rows numbered from the next id keep the history ordered by id. */
  lemma {:induction false} RecordedRowsOrdered(h: seq<Execution>, next: nat, res: seq<Resolved>, url: string, campaignTitle: Option<string>, clock: nat -> string)
    requires ExecutionIdsOrdered(h, next)
    ensures ExecutionIdsOrdered(h + ExecutionRows(res, url, campaignTitle, clock, next), next + |res|)
  {
    if res != [] {
      var init := res[..|res| - 1];
      RecordedRowsOrdered(h, next, init, url, campaignTitle, clock);
      var rows := ExecutionRows(init, url, campaignTitle, clock, next);
      var x := res[|res| - 1];
      var row := Execution(next + |init|, url, x.queryId, x.finalQuery, campaignTitle, x.category, clock(|init|));
      AppendExecutionOrdered(h + rows, next + |init|, row);
      assert h + ExecutionRows(res, url, campaignTitle, clock, next) == (h + rows) + [row];
    }
  }

  /** Recording the next result under the next id extends the recorded rows. */
  lemma RecordStep(h0: seq<Execution>, n0: nat, h: seq<Execution>, res: seq<Resolved>, x: Resolved,
                   url: string, campaignTitle: Option<string>, clock: nat -> string)
    requires h == h0 + ExecutionRows(res, url, campaignTitle, clock, n0)
    ensures h + [Execution(n0 + |res|, url, x.queryId, x.finalQuery, campaignTitle, x.category, clock(|res|))]
         == h0 + ExecutionRows(res + [x], url, campaignTitle, clock, n0)
  {
    ExecutionRowsSnoc(res, x, url, campaignTitle, clock, n0);
    var rows := ExecutionRows(res, url, campaignTitle, clock, n0);
    var row := Execution(n0 + |res|, url, x.queryId, x.finalQuery, campaignTitle, x.category, clock(|res|));
    assert h0 + (rows + [row]) == (h0 + rows) + [row];
  }

  class Database {
    var reports: seq<Report>
    var queries: seq<Query>
    var history: seq<Execution>
    /** The ids the next `queries` and `execution_history` rows receive. */
    var nextQueryId: nat
    var nextExecutionId: nat

    /** Ids are assigned in insertion order, so they are unique. */
    ghost predicate Valid()
      reads this
    {
      QueryIdsOrdered(queries, nextQueryId) && ExecutionIdsOrdered(history, nextExecutionId)
    }

    constructor ()
      ensures Valid()
      ensures reports == [] && queries == [] && history == []
      ensures nextQueryId == 1 && nextExecutionId == 1
    {
      reports, queries, history := [], [], [];
      nextQueryId, nextExecutionId := 1, 1;
    }

    /** `scrape_reports`: read listing pages 0 to 19 until one is not 200;
        on each, insert the kept articles whose url no committed report has,
        then commit. A malformed article raises and leaves the pages
        committed so far. */
    method ScrapeReports(pages: seq<ListingPage>) returns (failure: Option<ParseError>)
      requires Valid()
      modifies this
      ensures Valid()
      ensures Swept(reports, failure) == Sweep(old(reports), pages, 0)
      ensures queries == old(queries) && history == old(history)
      ensures nextQueryId == old(nextQueryId) && nextExecutionId == old(nextExecutionId)
    {
      var page := 0;
      while page < PageLimit
        invariant page <= PageLimit
        invariant Sweep(reports, pages, page) == Sweep(old(reports), pages, 0)
        invariant queries == old(queries) && history == old(history)
        invariant nextQueryId == old(nextQueryId) && nextExecutionId == old(nextExecutionId)
      {
        if page >= |pages| || pages[page].status != 200 {
          SweepStops(reports, pages, page);
          return None;
        }
        var found := ExtractArticles(pages[page].articles);
        if found.Err? {
          SweepFails(reports, pages, page, found.error);
          return Some(found.error);
        }
        SweepNext(reports, pages, page, found.value);
        AddNewReports(found.value);
        page := page + 1;
      }
      SweepStops(reports, pages, page);
      failure := None;
    }

    /** One page of the sweep: add each found report whose url no committed
        row has, then commit. */
    method AddNewReports(found: seq<Report>)
      modifies this
      ensures reports == old(reports) + NewReports(old(reports), found)
      ensures queries == old(queries) && history == old(history)
      ensures nextQueryId == old(nextQueryId) && nextExecutionId == old(nextExecutionId)
    {
      var pending: seq<Report> := [];
      var k := 0;
      while k < |found|
        invariant 0 <= k <= |found|
        invariant pending == NewReports(reports, found[..k])
      {
        assert found[..k + 1][..k] == found[..k];
        if !UrlStored(reports, found[k].url) {
          pending := pending + [found[k]];
        }
        k := k + 1;
      }
      assert found[..k] == found;
      reports := reports + pending;
    }

    /** `store_query`: a new template gets the next id and goes last. */
    method StoreQuery(query: string, tag: string, queryType: string, category: string) returns (id: nat)
      requires Valid()
      modifies this
      ensures Valid()
      ensures id == old(nextQueryId) && nextQueryId == id + 1
      ensures queries == old(queries) + [Query(id, query, tag, queryType, category)]
      ensures reports == old(reports) && history == old(history) && nextExecutionId == old(nextExecutionId)
    {
      id := nextQueryId;
      queries := queries + [Query(id, query, tag, queryType, category)];
      nextQueryId := nextQueryId + 1;
    }

    /** `import_queries`: every entry must carry the four keys; the first
        that does not ends the request before the commit, so nothing is
        imported; otherwise all entries are appended in array order. */
    method ImportQueries(entries: seq<map<string, string>>) returns (imported: bool)
      requires Valid()
      modifies this
      ensures Valid()
      ensures imported <==> forall i :: 0 <= i < |entries| ==> WellFormedEntry(entries[i])
      ensures imported ==> |queries| == |old(queries)| + |entries| && queries[..|old(queries)|] == old(queries)
      ensures imported ==> forall i :: 0 <= i < |entries| ==>
                WellFormedEntry(entries[i]) && queries[|old(queries)| + i] == EntryQuery(entries[i], old(nextQueryId) + i)
      ensures imported ==> nextQueryId == old(nextQueryId) + |entries|
      ensures !imported ==> queries == old(queries) && nextQueryId == old(nextQueryId)
      ensures reports == old(reports) && history == old(history) && nextExecutionId == old(nextExecutionId)
    {
      var pending: seq<Query> := [];
      var i := 0;
      while i < |entries|
        invariant 0 <= i <= |entries|
        invariant forall j :: 0 <= j < i ==> WellFormedEntry(entries[j])
        invariant |pending| == i
        invariant forall j :: 0 <= j < i ==> pending[j] == EntryQuery(entries[j], nextQueryId + j)
      {
        if !WellFormedEntry(entries[i]) {
          return false;
        }
        pending := pending + [EntryQuery(entries[i], nextQueryId + i)];
        i := i + 1;
      }
      queries := queries + pending;
      nextQueryId := nextQueryId + |entries|;
      imported := true;
    }

    /** `update_query`: the template with this id gets the new text, tag
        and type; its id and category stay. An unknown id changes nothing. */
    method UpdateQuery(id: nat, query: string, tag: string, queryType: string) returns (found: bool)
      requires Valid()
      modifies this
      ensures Valid()
      ensures found <==> exists i :: 0 <= i < |old(queries)| && old(queries)[i].id == id
      ensures |queries| == |old(queries)|
      ensures forall i :: 0 <= i < |queries| ==>
                queries[i] == if old(queries)[i].id == id
                              then old(queries)[i].(query := query, tag := tag, queryType := queryType)
                              else old(queries)[i]
      ensures forall i :: 0 <= i < |queries| ==>
                queries[i].id == old(queries)[i].id && queries[i].category == old(queries)[i].category
      ensures reports == old(reports) && history == old(history)
      ensures nextQueryId == old(nextQueryId) && nextExecutionId == old(nextExecutionId)
    {
      var k := FirstIndex(queries, (q: Query) => q.id == id);
      if k.None? {
        return false;
      }
      var i := k.value;
      queries := queries[i := queries[i].(query := query, tag := tag, queryType := queryType)];
      found := true;
    }

    /** `execute_query` once the advisory has been fetched and parsed:
        extract the three indicator tables, then run the templates against
        them. `clock(k)` is the `datetime.utcnow` reading taken when the
        `k`-th history row of this request is inserted. */
    method ExecuteQuery(url: string, doc: Document, campaignTitle: Option<string>, clock: nat -> string)
      returns (executed: seq<Resolved>)
      requires Valid()
      modifies this
      ensures Valid()
      ensures executed == Resolve(old(queries), TableValues(doc, "Domain"), TableValues(doc, "Hash"), TableValues(doc, "Filename"))
      ensures history == old(history) + ExecutionRows(executed, url, campaignTitle, clock, old(nextExecutionId))
      ensures nextExecutionId == old(nextExecutionId) + |executed|
      ensures reports == old(reports) && queries == old(queries) && nextQueryId == old(nextQueryId)
    {
      var domains := ExtractDataFromTable(doc, "Domain");
      var hashes := ExtractDataFromTable(doc, "Hash");
      var filenames := ExtractDataFromTable(doc, "Filename");
      executed := RunQueries(url, domains, hashes, filenames, campaignTitle, clock);
    }

    /** The resolution loop of `execute_query`: select the relevant
        templates and, for each one containing `$1`, record one history row
        carrying the advisory url, the template id, the resolved text, the
        page title and the template's category. */
    method RunQueries(url: string, domains: seq<string>, hashes: seq<string>, filenames: seq<string>,
                      campaignTitle: Option<string>, clock: nat -> string)
      returns (executed: seq<Resolved>)
      requires Valid()
      modifies this
      ensures Valid()
      ensures executed == Resolve(old(queries), domains, hashes, filenames)
      ensures history == old(history) + ExecutionRows(executed, url, campaignTitle, clock, old(nextExecutionId))
      ensures nextExecutionId == old(nextExecutionId) + |executed|
      ensures reports == old(reports) && queries == old(queries) && nextQueryId == old(nextQueryId)
    {
      var relevant := SelectRelevant(queries, domains, hashes, filenames);
      executed := [];
      var k := 0;
      while k < |relevant|
        invariant 0 <= k <= |relevant|
        invariant executed == ResolveAll(relevant[..k], domains, hashes, filenames)
        invariant history == old(history) + ExecutionRows(executed, url, campaignTitle, clock, old(nextExecutionId))
        invariant nextExecutionId == old(nextExecutionId) + |executed|
        invariant reports == old(reports) && queries == old(queries) && nextQueryId == old(nextQueryId)
      {
        executed := RunQuery(relevant, k, domains, hashes, filenames, url, campaignTitle, clock,
                             old(history), old(nextExecutionId), executed);
        k := k + 1;
      }
      assert relevant[..k] == relevant;
      RecordedRowsOrdered(old(history), old(nextExecutionId), executed, url, campaignTitle, clock);
    }

    /** One pass of the resolution loop, for the selected template `k`: if
        it contains `$1`, substitute the data list of its own type and add
        and commit its history row under the next id. */
    method RunQuery(relevant: seq<Query>, k: nat, domains: seq<string>, hashes: seq<string>, filenames: seq<string>,
                    url: string, campaignTitle: Option<string>, clock: nat -> string,
                    ghost h0: seq<Execution>, ghost n0: nat, executed: seq<Resolved>)
      returns (executed': seq<Resolved>)
      requires k < |relevant| && forall q :: q in relevant ==> IsIndicatorType(q.queryType)
      requires executed == ResolveAll(relevant[..k], domains, hashes, filenames)
      requires history == h0 + ExecutionRows(executed, url, campaignTitle, clock, n0)
      requires nextExecutionId == n0 + |executed|
      modifies this
      ensures executed' == ResolveAll(relevant[..k + 1], domains, hashes, filenames)
      ensures history == h0 + ExecutionRows(executed', url, campaignTitle, clock, n0)
      ensures nextExecutionId == n0 + |executed'|
      ensures reports == old(reports) && queries == old(queries) && nextQueryId == old(nextQueryId)
    {
      ResolveAllSnoc(relevant, k, domains, hashes, filenames);
      var q := relevant[k];
      executed' := executed;
      if Contains(q.query, Placeholder) {
        var dataList := DataList(IndicatorsFor(q.queryType, domains, hashes, filenames));
        var x := Resolved(q.id, Replace(q.query, Placeholder, dataList), q.category);
        RecordStep(h0, n0, history, executed, x, url, campaignTitle, clock);
        history := history + [Execution(nextExecutionId, url, x.queryId, x.finalQuery, campaignTitle, x.category, clock(|executed|))];
        nextExecutionId := nextExecutionId + 1;
        executed' := executed + [x];
      }
    }

    /** `delete_execution`: remove the one history row with this id, or
        report that there is none and change nothing. */
    method DeleteExecution(id: nat) returns (found: bool)
      requires Valid()
      modifies this
      ensures Valid()
      ensures found <==> exists i :: 0 <= i < |old(history)| && old(history)[i].id == id
      ensures found ==> exists i :: 0 <= i < |old(history)| && old(history)[i].id == id
                                    && history == old(history)[..i] + old(history)[i + 1..]
      ensures !found ==> history == old(history)
      ensures forall e :: e in history <==> e in old(history) && e.id != id
      ensures reports == old(reports) && queries == old(queries)
      ensures nextQueryId == old(nextQueryId) && nextExecutionId == old(nextExecutionId)
    {
      var k := FirstIndex(history, (e: Execution) => e.id == id);
      if k.None? {
        return false;
      }
      var i := k.value;
      RemoveExecution(history, nextExecutionId, i);
      history := history[..i] + history[i + 1..];
      found := true;
    }

    /** `delete_all_history`: the history table is left empty. */
    method DeleteAllHistory()
      requires Valid()
      modifies this
      ensures Valid()
      ensures history == []
      ensures reports == old(reports) && queries == old(queries)
      ensures nextQueryId == old(nextQueryId) && nextExecutionId == old(nextExecutionId)
    {
      history := [];
    }
  }
}
