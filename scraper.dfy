/** The scraper, with BeautifulSoup's parse trees replaced by the few facts
    the code reads from them: the teaser articles of an advisory listing
    page, and the header cells and data cells of an advisory's tables. */
module Scraper {
  import opened Wrappers
  import opened Text
  import opened Rows

  // ---------------------------------------------------------------------
  // Listing pages: `extract_stop_ransomware_articles`
  // ---------------------------------------------------------------------

  /** The `<a>` inside an article's `h3.c-teaser__title`: the text of its
      `<span>`, if it has one, and its `href` attribute, if it has one. */
  datatype TitleLink = TitleLink(span: Option<string>, href: Option<string>)

  /** An article's `div.c-teaser__date`: the text of its `<time>`, if any. */
  datatype DateDiv = DateDiv(time: Option<string>)

  /** One promoted teaser `article` of a listing page. `titleLink` is `None`
      when the `h3` or the `<a>` in it is missing. */
  datatype ArticleNode = ArticleNode(titleLink: Option<TitleLink>, dateDiv: Option<DateDiv>)

  /** The exceptions a malformed article raises: `AttributeError` on a
      missing title link, `KeyError` on a missing `href`, `AttributeError`
      on a date div without `<time>`. */
  datatype ParseError = NoTitleLink | NoHref | NoTime

  const TitlePrefix := "#StopRansomware:"
  const SiteRoot := "https://www.cisa.gov"
  const UnknownDate := "Unknown Date"

  /** What the loop body does with one article. */
  datatype Verdict = Skip | Keep(report: Report) | Fail(error: ParseError)

  /** A site-relative href gets the site's scheme and host. */
  function FullUrl(href: string): (r: string)
    ensures |href| <= |r| && r[|r| - |href|..] == href
    ensures StartsWith(href, "/") ==> r == SiteRoot + href
    ensures !StartsWith(href, "/") ==> r == href
  {
    if StartsWith(href, "/") then SiteRoot + href else href
  }

  /** One iteration of the article loop: the title link must exist; an
      article without a `<span>` or whose stripped title lacks the
      `#StopRansomware:` prefix is skipped; otherwise the href must exist
      and a date div, when present, must hold a `<time>`. */
  function Classify(a: ArticleNode): (r: Verdict)
    ensures r == Fail(NoTitleLink) <==> a.titleLink.None?
  {
    match a.titleLink
    case None => Fail(NoTitleLink)
    case Some(link) =>
      match link.span
      case None => Skip
      case Some(text) =>
        var title := Strip(text);
        if !StartsWith(title, TitlePrefix) then Skip
        else
          match link.href
          case None => Fail(NoHref)
          case Some(href) =>
            match a.dateDiv
            case None => Keep(Report(title, FullUrl(href), UnknownDate))
            case Some(DateDiv(None)) => Fail(NoTime)
            case Some(DateDiv(Some(time))) => Keep(Report(title, FullUrl(href), Strip(time)))
  }

  /** What a kept article becomes: its title carries the prefix, an href
      starting with `/` is completed with the site root and any other href
      is kept as it is, and a missing date div reads `Unknown Date`. */
  lemma ClassifyKeep(a: ArticleNode, x: Report)
    requires Classify(a) == Keep(x)
    ensures StartsWith(x.title, TitlePrefix)
    ensures a.titleLink.Some? && a.titleLink.value.span.Some?
    ensures x.title == Strip(a.titleLink.value.span.value)
    ensures a.titleLink.value.href.Some?
    ensures var href := a.titleLink.value.href.value;
      && (StartsWith(href, "/") ==> x.url == SiteRoot + href)
      && (!StartsWith(href, "/") ==> x.url == href)
    ensures a.dateDiv.None? ==> x.date == UnknownDate
    ensures a.dateDiv.Some? ==> a.dateDiv.value.time.Some? && x.date == Strip(a.dateDiv.value.time.value)
  {
    match a.titleLink
    case Some(link) =>
      match link.span
      case Some(text) =>
        match link.href
        case Some(href) =>
          match a.dateDiv
          case None =>
          case Some(DateDiv(Some(time))) =>
  }

  /** An article whose title does not carry the prefix is never kept. */
  lemma ClassifyOffTopic(a: ArticleNode, text: string, href: Option<string>)
    requires a.titleLink == Some(TitleLink(Some(text), href))
    requires !StartsWith(Strip(text), TitlePrefix)
    ensures Classify(a) == Skip
  {
  }

  /** An article whose title link has no `<span>` is skipped. */
  lemma ClassifyNoSpan(a: ArticleNode, href: Option<string>)
    requires a.titleLink == Some(TitleLink(None, href))
    ensures Classify(a) == Skip
  {
  }

  /** An article whose stripped title carries the prefix is kept when it
      has an href and its date div, if any, holds a `<time>`; a missing
      href raises `NoHref` and a date div without `<time>` raises `NoTime`. */
  lemma ClassifyOnTopic(a: ArticleNode, text: string, href: Option<string>)
    requires a.titleLink == Some(TitleLink(Some(text), href))
    requires StartsWith(Strip(text), TitlePrefix)
    ensures href.None? ==> Classify(a) == Fail(NoHref)
    ensures href.Some? && a.dateDiv.None? ==>
      Classify(a) == Keep(Report(Strip(text), FullUrl(href.value), UnknownDate))
    ensures href.Some? && a.dateDiv == Some(DateDiv(None)) ==> Classify(a) == Fail(NoTime)
    ensures href.Some? && a.dateDiv.Some? && a.dateDiv.value.time.Some? ==>
      Classify(a) == Keep(Report(Strip(text), FullUrl(href.value), Strip(a.dateDiv.value.time.value)))
  {
  }

  /** The verdict on each article, in article order. */
  function Verdicts(nodes: seq<ArticleNode>): (r: seq<Verdict>)
    ensures |r| == |nodes| && forall i :: 0 <= i < |nodes| ==> r[i] == Classify(nodes[i])
  {
    seq(|nodes|, i requires 0 <= i < |nodes| => Classify(nodes[i]))
  }

  /** The kept reports of a run of verdicts, in order, or the first exception. */
  function Collect(vs: seq<Verdict>): (r: Result<seq<Report>, ParseError>)
    ensures r.Ok? ==> |r.value| <= |vs|
  {
    if vs == [] then Ok([])
    else
      match Collect(vs[..|vs| - 1])
      case Err(e) => Err(e)
      case Ok(xs) =>
        match vs[|vs| - 1]
        case Fail(e) => Err(e)
        case Skip => Ok(xs)
        case Keep(x) => Ok(xs + [x])
  }

  /** The whole article loop: the kept reports in article order, or the
      exception of the first malformed article. */
  function Articles(nodes: seq<ArticleNode>): (r: Result<seq<Report>, ParseError>)
    ensures nodes == [] ==> r == Ok([])
    ensures r.Ok? ==> |r.value| <= |nodes|
  {
    Collect(Verdicts(nodes))
  }

  /** The loop completes exactly when no verdict is a failure. */
  lemma {:induction false} CollectOk(vs: seq<Verdict>)
    ensures Collect(vs).Ok? <==> forall i :: 0 <= i < |vs| ==> !vs[i].Fail?
  {
    if vs != [] {
      var init := vs[..|vs| - 1];
      CollectOk(init);
      assert forall i :: 0 <= i < |init| ==> init[i] == vs[i];
    }
  }

  /** A completed loop returns precisely the reports of the kept verdicts. */
  lemma {:induction false} CollectMembers(vs: seq<Verdict>)
    requires Collect(vs).Ok?
    ensures forall x :: x in Collect(vs).value <==> exists i :: 0 <= i < |vs| && vs[i] == Keep(x)
  {
    if vs != [] {
      var init := vs[..|vs| - 1];
      CollectMembers(init);
      assert forall i :: 0 <= i < |init| ==> init[i] == vs[i];
    }
  }

  /** An exception is that of the first failing verdict. */
  lemma {:induction false} CollectErr(vs: seq<Verdict>)
    requires Collect(vs).Err?
    ensures exists i :: 0 <= i < |vs| && vs[i] == Fail(Collect(vs).error)
                        && forall j :: 0 <= j < i ==> !vs[j].Fail?
  {
    var init := vs[..|vs| - 1];
    assert forall i :: 0 <= i < |init| ==> init[i] == vs[i];
    if Collect(init).Err? {
      CollectErr(init);
    } else {
      CollectOk(init);
      assert vs[|vs| - 1] == Fail(Collect(vs).error);
    }
  }

  /** Order is preserved: the reports of a later stretch of verdicts come
      after those of an earlier one, and the first exception wins. */
  lemma {:induction false} CollectAppend(a: seq<Verdict>, b: seq<Verdict>)
    ensures Collect(a + b) ==
      match Collect(a)
      case Err(e) => Err(e)
      case Ok(xs) =>
        match Collect(b)
        case Err(e) => Err(e)
        case Ok(ys) => Ok(xs + ys)
    decreases |b|
  {
    if b == [] {
      assert a + b == a;
      match Collect(a)
      case Err(e) =>
      case Ok(xs) => assert xs + [] == xs;
    } else {
      var b' := b[..|b| - 1];
      CollectAppend(a, b');
      assert (a + b)[..|a + b| - 1] == a + b';
      assert (a + b)[|a + b| - 1] == b[|b| - 1];
      match Collect(a)
      case Err(e) =>
      case Ok(xs) =>
        match Collect(b')
        case Err(e) =>
        case Ok(ys) =>
          match b[|b| - 1]
          case Fail(e) =>
          case Skip =>
          case Keep(x) =>
            assert xs + (ys + [x]) == (xs + ys) + [x];
    }
  }

  /** The article loop, stated on the articles: it completes exactly when
      no article is malformed, and then returns the reports of the kept
      articles and nothing else. */
  lemma ArticlesOk(nodes: seq<ArticleNode>)
    ensures Articles(nodes).Ok? <==> forall i :: 0 <= i < |nodes| ==> !Classify(nodes[i]).Fail?
    ensures Articles(nodes).Ok? ==>
      forall x :: x in Articles(nodes).value <==> exists i :: 0 <= i < |nodes| && Classify(nodes[i]) == Keep(x)
  {
    var vs := Verdicts(nodes);
    CollectOk(vs);
    if Collect(vs).Ok? {
      CollectMembers(vs);
    }
  }

  /** `extract_stop_ransomware_articles` once the page has been fetched and
      parsed: one pass over the teaser articles, appending each kept one. */
  method ExtractArticles(nodes: seq<ArticleNode>) returns (r: Result<seq<Report>, ParseError>)
    ensures r == Articles(nodes)
  {
    ghost var vs := Verdicts(nodes);
    var extracted: seq<Report> := [];
    var i := 0;
    while i < |nodes|
      invariant 0 <= i <= |nodes|
      invariant Collect(vs[..i]) == Ok(extracted)
      decreases |nodes| - i
    {
      var failure;
      failure, extracted := ExtractArticle(nodes, i, vs, extracted);
      if failure.Some? {
        return Err(failure.value);
      }
      i := i + 1;
    }
    assert vs[..i] == vs;
    r := Ok(extracted);
  }

  /** One pass of the article loop, for article `i`: a malformed article
      raises, which ends the whole loop; a kept one is appended. */
  method ExtractArticle(nodes: seq<ArticleNode>, i: nat, ghost vs: seq<Verdict>, extracted: seq<Report>)
    returns (failure: Option<ParseError>, extracted': seq<Report>)
    requires i < |nodes| && vs == Verdicts(nodes) && Collect(vs[..i]) == Ok(extracted)
    ensures failure.Some? ==> Collect(vs) == Err(failure.value)
    ensures failure.None? ==> Collect(vs[..i + 1]) == Ok(extracted')
  {
    CollectStep(vs, i, extracted);
    failure, extracted' := None, extracted;
    var v := Classify(nodes[i]);
    assert v == vs[i];
    match v {
      case Fail(e) =>
        failure := Some(e);
      case Skip =>
      case Keep(x) =>
        extracted' := extracted + [x];
    }
  }

  /** What verdict `i` does to a loop that completed the verdicts before it. */
  lemma CollectStep(vs: seq<Verdict>, i: nat, extracted: seq<Report>)
    requires i < |vs| && Collect(vs[..i]) == Ok(extracted)
    ensures vs[i].Fail? ==> Collect(vs) == Err(vs[i].error)
    ensures vs[i].Skip? ==> Collect(vs[..i + 1]) == Ok(extracted)
    ensures vs[i].Keep? ==> Collect(vs[..i + 1]) == Ok(extracted + [vs[i].report])
  {
    var w := vs[..i + 1];
    assert w[..|w| - 1] == vs[..i] && w[|w| - 1] == vs[i];
    if vs[i].Fail? {
      CollectFailStep(vs, i);
    }
  }

  /** A failing verdict after a completed stretch is the whole run's exception. */
  lemma CollectFailStep(vs: seq<Verdict>, i: nat)
    requires i < |vs| && vs[i].Fail? && Collect(vs[..i]).Ok?
    ensures Collect(vs) == Err(vs[i].error)
  {
    var w := vs[..i + 1];
    assert w[..|w| - 1] == vs[..i] && w[|w| - 1] == vs[i];
    assert Collect(w) == Err(vs[i].error);
    CollectAppend(w, vs[i + 1..]);
    assert w + vs[i + 1..] == vs;
  }

  // ---------------------------------------------------------------------
  // Advisory pages: `extract_data_from_table`
  // ---------------------------------------------------------------------

  /** The first `<a>` inside a cell, with its `href` attribute if it has one. */
  datatype Anchor = Anchor(href: Option<string>)

  /** A `<td>`: its first link, if any, and its `.string`, which is `None`
      unless the cell holds exactly one piece of text. */
  datatype Cell = Cell(anchor: Option<Anchor>, text: Option<string>)

  /** A `<th>` of the document: its `.string`, and the `<td>` cells of the
      enclosing `<table>` in document order, or `None` if it has none. */
  datatype HeaderCell = HeaderCell(text: Option<string>, table: Option<seq<Cell>>)

  /** An advisory page, as the sequence of its `<th>` cells in document order. */
  type Document = seq<HeaderCell>

  /** The cell's first link has a non-empty target. */
  predicate HasLink(c: Cell) {
    c.anchor.Some? && c.anchor.value.href.Some? && c.anchor.value.href.value != []
  }

  /** The value a cell contributes: a non-empty link target, else the
      stripped text when the cell's string is non-empty, else nothing. */
  function CellValue(c: Cell): (r: Option<string>)
    ensures r.None? <==> !HasLink(c) && (c.text.None? || c.text.value == [])
  {
    if HasLink(c) then
      Some(c.anchor.value.href.value)
    else if c.text.Some? && c.text.value != [] then
      Some(Strip(c.text.value))
    else
      None
  }

  /** A non-empty link target wins over the cell's text. */
  lemma CellValueLinkFirst(href: string, text: Option<string>)
    requires href != []
    ensures CellValue(Cell(Some(Anchor(Some(href))), text)) == Some(href)
  {
  }

  /** An empty or missing href falls through to the text. */
  lemma CellValueEmptyHref(href: Option<string>, text: string)
    requires href.None? || href == Some([])
    requires text != []
    ensures CellValue(Cell(Some(Anchor(href)), Some(text))) == Some(Strip(text))
  {
  }

  /** A cell without a non-empty link target and with a non-empty string
      contributes that string stripped, whether it has an `<a>` or not. */
  lemma CellValueText(c: Cell)
    requires !HasLink(c) && c.text.Some? && c.text.value != []
    ensures CellValue(c) == Some(Strip(c.text.value))
  {
  }

  /** The emptiness test comes before the strip, so a cell of blanks
      yields an empty string rather than nothing. */
  lemma CellValueBlank()
    ensures CellValue(Cell(None, Some("  "))) == Some("")
  {
    assert "  "[1..] == " ";
    assert " "[1..] == "";
    assert TrimStart("  ") == "";
  }

  /** The values of a run of cells, in cell order. */
  function CellValues(cells: seq<Cell>): (r: seq<string>)
    ensures |r| <= |cells|
  {
    if cells == [] then []
    else
      var v := CellValue(cells[|cells| - 1]);
      CellValues(cells[..|cells| - 1]) + (if v.Some? then [v.value] else [])
  }

  /** Each value comes from some cell, and every cell with a value contributes it. */
  lemma {:induction false} CellValuesMembers(cells: seq<Cell>)
    ensures forall v :: v in CellValues(cells) <==> exists i :: 0 <= i < |cells| && CellValue(cells[i]) == Some(v)
  {
    if cells != [] {
      var init := cells[..|cells| - 1];
      CellValuesMembers(init);
      assert forall i :: 0 <= i < |init| ==> init[i] == cells[i];
    }
  }

  /** The values of two runs of cells are those of the first run followed
      by those of the second: cell order is kept, whether or not a cell
      contributes a value. */
  lemma {:induction false} CellValuesAppend(a: seq<Cell>, b: seq<Cell>)
    ensures CellValues(a + b) == CellValues(a) + CellValues(b)
    decreases |b|
  {
    if b == [] {
      assert a + b == a;
    } else {
      var b' := b[..|b| - 1];
      var v := CellValue(b[|b| - 1]);
      var tail := if v.Some? then [v.value] else [];
      CellValuesAppend(a, b');
      assert (a + b)[..|a + b| - 1] == a + b';
      assert (a + b)[|a + b| - 1] == b[|b| - 1];
      assert CellValues(a + b) == CellValues(a + b') + tail;
      assert CellValues(b) == CellValues(b') + tail;
      assert CellValues(a) + (CellValues(b') + tail) == (CellValues(a) + CellValues(b')) + tail;
    }
  }

  /** When every cell has a value, the output is one value per cell, in cell order. */
  lemma {:induction false} CellValuesOnePerCell(cells: seq<Cell>)
    requires forall i :: 0 <= i < |cells| ==> CellValue(cells[i]).Some?
    ensures |CellValues(cells)| == |cells|
    ensures forall i :: 0 <= i < |cells| ==> CellValues(cells)[i] == CellValue(cells[i]).value
  {
    if cells != [] {
      var init := cells[..|cells| - 1];
      var c := cells[|cells| - 1];
      assert forall i :: 0 <= i < |init| ==> init[i] == cells[i];
      CellValuesOnePerCell(init);
      assert CellValue(c).Some?;
      assert CellValues(cells) == CellValues(init) + [CellValue(c).value];
      forall i | 0 <= i < |cells| ensures CellValues(cells)[i] == CellValue(cells[i]).value {
        if i < |init| {
          assert CellValues(cells)[i] == CellValues(init)[i];
        }
      }
    }
  }

  /** `soup.find('th', string=name)`: the first header whose string is exactly `name`. */
  function FindHeader(doc: Document, name: string): (r: Option<nat>)
    ensures r.Some? ==> r.value < |doc| && doc[r.value].text == Some(name)
    ensures r.Some? ==> forall i :: 0 <= i < r.value ==> doc[i].text != Some(name)
    ensures r.None? <==> forall i :: 0 <= i < |doc| ==> doc[i].text != Some(name)
  {
    FirstIndex(doc, (h: HeaderCell) => h.text == Some(name))
  }

  /** What `extract_data_from_table(soup, name)` returns: nothing without a
      matching header or without an enclosing table, and otherwise at most
      one value per cell of that table. */
  function TableValues(doc: Document, name: string): (r: seq<string>)
    ensures FindHeader(doc, name).None? ==> r == []
    ensures FindHeader(doc, name).Some? && doc[FindHeader(doc, name).value].table.None? ==> r == []
    ensures FindHeader(doc, name).Some? && doc[FindHeader(doc, name).value].table.Some? ==>
              |r| <= |doc[FindHeader(doc, name).value].table.value|
  {
    match FindHeader(doc, name)
    case None => []
    case Some(k) =>
      match doc[k].table
      case None => []
      case Some(cells) => CellValues(cells)
  }

  /** `extract_data_from_table`: locate the table under the header named
      `name`, then collect one value per cell, in cell order. */
  method ExtractDataFromTable(doc: Document, name: string) returns (data: seq<string>)
    ensures data == TableValues(doc, name)
  {
    var header := FindHeader(doc, name);
    if header.None? {
      return [];
    }
    var table := doc[header.value].table;
    if table.None? {
      return [];
    }
    var cells := table.value;
    data := [];
    var i := 0;
    while i < |cells|
      invariant 0 <= i <= |cells|
      invariant data == CellValues(cells[..i])
    {
      assert cells[..i + 1][..i] == cells[..i];
      var c := cells[i];
      if c.anchor.Some? && c.anchor.value.href.Some? && c.anchor.value.href.value != [] {
        data := data + [c.anchor.value.href.value];
      } else if c.text.Some? && c.text.value != [] {
        data := data + [Strip(c.text.value)];
      }
      i := i + 1;
    }
    assert cells[..i] == cells;
  }

  // ---------------------------------------------------------------------
  // The listing sweep: `scrape_reports`
  // ---------------------------------------------------------------------

  /** The response for one listing page: its status code and, when the
      status is 200, its teaser articles. */
  datatype ListingPage = ListingPage(status: int, articles: seq<ArticleNode>)

  /** `range(20)`: pages 0 to 19 are the most the sweep asks for. */
  const PageLimit := 20

  /** The reports table after a sweep, and the exception that ended it early, if any. */
  datatype Swept = Swept(reports: seq<Report>, failure: Option<ParseError>)

  /** The rows one page adds: each found report whose url no committed row
      has. The check reads committed rows only, so two reports of one page
      that share a new url are both added. */
  function NewReports(committed: seq<Report>, found: seq<Report>): (r: seq<Report>)
    ensures |r| <= |found|
    ensures committed == [] ==> r == found
  {
    if found == [] then []
    else
      var x := found[|found| - 1];
      NewReports(committed, found[..|found| - 1]) + (if UrlStored(committed, x.url) then [] else [x])
  }

  /** The rows of two runs of found reports are those of the first run
      followed by those of the second: page order is kept. */
  lemma {:induction false} NewReportsAppend(committed: seq<Report>, a: seq<Report>, b: seq<Report>)
    ensures NewReports(committed, a + b) == NewReports(committed, a) + NewReports(committed, b)
    decreases |b|
  {
    if b == [] {
      assert a + b == a;
    } else {
      var b' := b[..|b| - 1];
      var x := b[|b| - 1];
      var tail := if UrlStored(committed, x.url) then [] else [x];
      NewReportsAppend(committed, a, b');
      assert (a + b)[..|a + b| - 1] == a + b';
      assert (a + b)[|a + b| - 1] == x;
      assert NewReports(committed, a + b) == NewReports(committed, a + b') + tail;
      assert NewReports(committed, b) == NewReports(committed, b') + tail;
      var na := NewReports(committed, a);
      var nb := NewReports(committed, b');
      assert na + (nb + tail) == (na + nb) + tail;
    }
  }

  /** A page adds exactly the found reports whose url is not yet stored. */
  lemma {:induction false} NewReportsMembers(committed: seq<Report>, found: seq<Report>)
    ensures forall x :: x in NewReports(committed, found) <==> x in found && !UrlStored(committed, x.url)
  {
    if found != [] {
      var init := found[..|found| - 1];
      NewReportsMembers(committed, init);
      assert found == init + [found[|found| - 1]];
    }
  }

  /** The sweep from page `i` on: stop at page 20, at the end of the
      responses, or at the first status other than 200; a malformed
      article raises and abandons the page; otherwise the page's new rows
      are committed before the next page is read. */
  function Sweep(committed: seq<Report>, pages: seq<ListingPage>, i: nat): (r: Swept)
    ensures |committed| <= |r.reports|
    ensures r.failure.Some? ==> i < PageLimit && i < |pages|
    decreases PageLimit - i
  {
    if i >= PageLimit || i >= |pages| || pages[i].status != 200 then Swept(committed, None)
    else
      match Articles(pages[i].articles)
      case Err(e) => Swept(committed, Some(e))
      case Ok(found) => Sweep(committed + NewReports(committed, found), pages, i + 1)
  }

  /** Existing reports are never modified or removed: the sweep only appends. */
  lemma {:induction false} SweepKeepsCommitted(committed: seq<Report>, pages: seq<ListingPage>, i: nat)
    ensures var r := Sweep(committed, pages, i).reports;
      |committed| <= |r| && r[..|committed|] == committed
    decreases PageLimit - i
  {
    if i >= PageLimit || i >= |pages| || pages[i].status != 200 {
    } else {
      match Articles(pages[i].articles)
      case Err(e) =>
      case Ok(found) =>
        var next := committed + NewReports(committed, found);
        SweepKeepsCommitted(next, pages, i + 1);
        assert next[..|committed|] == committed;
    }
  }

  /** A url stored before an append is still stored after it. */
  lemma UrlStoredGrows(committed: seq<Report>, added: seq<Report>)
    ensures forall u :: UrlStored(committed, u) ==> UrlStored(committed + added, u)
  {
    forall u | UrlStored(committed, u) ensures UrlStored(committed + added, u) {
      var j :| 0 <= j < |committed| && committed[j].url == u;
      assert (committed + added)[j] == committed[j];
    }
  }

  /** No report whose url was already stored is inserted again. */
  lemma {:induction false} SweepSkipsStoredUrls(committed: seq<Report>, pages: seq<ListingPage>, i: nat)
    ensures var r := Sweep(committed, pages, i).reports;
      forall k :: |committed| <= k < |r| ==> !UrlStored(committed, r[k].url)
    decreases PageLimit - i
  {
    if i >= PageLimit || i >= |pages| || pages[i].status != 200 {
    } else {
      match Articles(pages[i].articles)
      case Err(e) =>
      case Ok(found) =>
        var added := NewReports(committed, found);
        var next := committed + added;
        SweepSkipsStoredUrls(next, pages, i + 1);
        SweepKeepsCommitted(next, pages, i + 1);
        NewReportsMembers(committed, found);
        UrlStoredGrows(committed, added);
        var r := Sweep(next, pages, i + 1).reports;
        forall k | |committed| <= k < |r|
          ensures !UrlStored(committed, r[k].url)
        {
          if k < |next| {
            assert r[k] == next[k] == added[k - |committed|];
            assert r[k] in added;
          }
        }
    }
  }

  /** Responses beyond page 19 are never read. */
  lemma {:induction false} SweepIgnoresLaterPages(committed: seq<Report>, pages: seq<ListingPage>, more: seq<ListingPage>, i: nat)
    requires |pages| >= PageLimit
    ensures Sweep(committed, pages + more, i) == Sweep(committed, pages, i)
    decreases PageLimit - i
  {
    if i < PageLimit {
      assert (pages + more)[i] == pages[i];
      match Articles(pages[i].articles)
      case Err(e) =>
      case Ok(found) =>
        if pages[i].status == 200 {
          SweepIgnoresLaterPages(committed + NewReports(committed, found), pages, more, i + 1);
        }
    }
  }

  /** The sweep stops at the first page whose status is not 200: nothing
      from that page on is read. */
  lemma {:induction false} SweepStopsAtFailedPage(committed: seq<Report>, pages: seq<ListingPage>, k: nat, i: nat)
    requires i <= k < |pages| && pages[k].status != 200
    ensures Sweep(committed, pages, i) == Sweep(committed, pages[..k], i)
    decreases k - i
  {
    if i == k {
    } else if i < PageLimit {
      assert pages[..k][i] == pages[i];
      if pages[i].status == 200 {
        match Articles(pages[i].articles)
        case Err(e) =>
        case Ok(found) =>
          SweepStopsAtFailedPage(committed + NewReports(committed, found), pages, k, i + 1);
      }
    }
  }

  /** A sweep ends at page 20, past the last response, or at a status other than 200. */
  lemma SweepStops(committed: seq<Report>, pages: seq<ListingPage>, i: nat)
    requires i >= PageLimit || i >= |pages| || pages[i].status != 200
    ensures Sweep(committed, pages, i) == Swept(committed, None)
  {
  }

  /** A malformed article ends the sweep with what was committed before its page. */
  lemma SweepFails(committed: seq<Report>, pages: seq<ListingPage>, i: nat, e: ParseError)
    requires i < PageLimit && i < |pages| && pages[i].status == 200
    requires Articles(pages[i].articles) == Err(e)
    ensures Sweep(committed, pages, i) == Swept(committed, Some(e))
  {
  }

  /** A well-formed page commits its new reports and moves to the next page. */
  lemma SweepNext(committed: seq<Report>, pages: seq<ListingPage>, i: nat, found: seq<Report>)
    requires i < PageLimit && i < |pages| && pages[i].status == 200
    requires Articles(pages[i].articles) == Ok(found)
    ensures Sweep(committed, pages, i) == Sweep(committed + NewReports(committed, found), pages, i + 1)
  {
  }

  /** Deduplication consults committed rows only: a page listing the same
      new report twice inserts it twice. */
  lemma SamePageDuplicates(x: Report)
    ensures NewReports([], [x, x]) == [x, x]
  {
    assert [x, x][..1] == [x];
    assert [x][..0] == [];
  }
}
