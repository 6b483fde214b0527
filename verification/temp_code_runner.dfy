/** tempCodeRunnerFile.py: for every row of the input list, search the three
    sites, keep the price texts read from each page as text, and write one
    spreadsheet row per input row with each site's texts joined by commas. */
module TempCodeRunner {
  import opened Common
  import opened Pages

  const NoPrice := "Nenhum preço encontrado"
  const FetchError := "Erro ao buscar preços"

  /** Listings (or price elements) examined on each site. */
  const Examined := 5

  // ---------------------------------------------------------------------
  // buscar_precos
  // ---------------------------------------------------------------------

  /** The price text a Mercado Livre listing contributes: the text of its
      whole-part element, when its lower-cased text contains the EAN. */
  function MlPrice(it: Item, ean: string): Option<string>
  {
    if Contains(Lower(it.text), ean) then it.fraction else None
  }

  /** The texts gathered from Mercado Livre listings, in page order. */
  function MlPrices(items: seq<Item>, ean: string): seq<string>
  {
    Keep(items, (it: Item) => MlPrice(it, ean))
  }

  /** `precos` once a page has been read. */
  function Gathered(site: string, ean: string, items: seq<Item>, texts: seq<string>): seq<string>
  {
    if site == MercadoLivre then MlPrices(Take(items, Examined), ean)
    else Take(texts, Examined)
  }

  /** What `buscar_precos` returns: a timed-out wait raises like any other
      error and yields the error label. */
  function BuscarPrecosOf(site: string, ean: string, fetch: Fetch): seq<string>
  {
    match fetch
    case Timeout => [FetchError]
    case Failed => [FetchError]
    case Page(items, texts) =>
      var precos := Gathered(site, ean, items, texts);
      if precos == [] then [NoPrice] else precos
  }

  lemma MlPricesStep(items: seq<Item>, i: nat, ean: string)
    requires i < |items|
    ensures MlPrices(items[..i + 1], ean) == MlPrices(items[..i], ean) + Present(MlPrice(items[i], ean))
  {
    assert items[..i + 1][..i] == items[..i];
  }

  /** The loop over the first five Mercado Livre listings. */
  method CollectMl(itens: seq<Item>, ean: string) returns (precos: seq<string>)
    ensures precos == MlPrices(itens, ean)
  {
    precos := [];
    for i := 0 to |itens|
      invariant precos == MlPrices(itens[..i], ean)
    {
      var item := itens[i];
      MlPricesStep(itens, i, ean);
      if Contains(Lower(item.text), ean) && item.fraction.Some? {
        precos := precos + [item.fraction.value];
      }
    }
    assert itens[..|itens|] == itens;
  }

  /** `buscar_precos`. */
  method BuscarPrecos(site: string, ean: string, fetch: Fetch) returns (r: seq<string>)
    ensures r == BuscarPrecosOf(site, ean, fetch)
  {
    if !fetch.Page? {
      return [FetchError];
    }
    var precos: seq<string>;
    if site == MercadoLivre {
      precos := CollectMl(Take(fetch.items, Examined), ean);
    } else {
      precos := Take(fetch.priceTexts, Examined);
    }
    r := if precos == [] then [NoPrice] else precos;
  }

  // ---------------------------------------------------------------------
  // Properties of buscar_precos
  // ---------------------------------------------------------------------

  /** A text is gathered from Mercado Livre exactly when some listing
      mentioning the EAN has it as its whole-part text. */
  lemma MlPricesMember(items: seq<Item>, ean: string, t: string)
    ensures t in MlPrices(items, ean) <==>
      exists i :: 0 <= i < |items| && Contains(Lower(items[i].text), ean) && items[i].fraction == Some(t)
  {
    KeepMember(items, (it: Item) => MlPrice(it, ean), t);
    if t in MlPrices(items, ean) {
      var i :| 0 <= i < |items| && MlPrice(items[i], ean) == Some(t);
      assert Contains(Lower(items[i].text), ean) && items[i].fraction == Some(t);
    }
    if exists i :: 0 <= i < |items| && Contains(Lower(items[i].text), ean) && items[i].fraction == Some(t) {
      var i :| 0 <= i < |items| && Contains(Lower(items[i].text), ean) && items[i].fraction == Some(t);
      assert MlPrice(items[i], ean) == Some(t);
    }
  }

  /** Listings that do not mention the EAN contribute nothing: removing one
      leaves the gathered texts unchanged. */
  lemma MlPricesIgnoresOthers(a: seq<Item>, b: seq<Item>, it: Item, ean: string)
    requires !Contains(Lower(it.text), ean)
    ensures MlPrices(a + [it] + b, ean) == MlPrices(a + b, ean)
  {
    KeepSkips(a, it, b, (x: Item) => MlPrice(x, ean));
  }

  /** The outcome of a search: the error label when the page could not be
      read, otherwise between one and five entries, the "no price" label
      standing alone exactly when nothing was gathered. */
  lemma BuscarPrecosOutcome(site: string, ean: string, fetch: Fetch)
    ensures !fetch.Page? ==> BuscarPrecosOf(site, ean, fetch) == [FetchError]
    ensures 1 <= |BuscarPrecosOf(site, ean, fetch)| <= Examined
    ensures fetch.Page? ==>
      var g := Gathered(site, ean, fetch.items, fetch.priceTexts);
      BuscarPrecosOf(site, ean, fetch) == if g == [] then [NoPrice] else g
  {
  }

  // ---------------------------------------------------------------------
  // Rows of the spreadsheet
  // ---------------------------------------------------------------------

  /** The value stored under a site's column: Mercado Livre is searched by
      product term, the others by EAN, with no check for empty terms. */
  function SiteField(site: string, row: InputRow, web: Web): string
  {
    var termo := if site == MercadoLivre then row.term else row.ean;
    Join(", ", BuscarPrecosOf(site, row.ean, web(site, termo)))
  }

  /** `ean_resultados` after the sites loop has visited `sites`. */
  function RowOf(row: InputRow, sites: seq<string>, web: Web): seq<Cell>
  {
    ResultRow(row.ean, row.term, sites, (site: string) => SiteField(site, row, web))
  }

  /** The body of the main loop for one row. */
  method ProcessRow(row: InputRow, sites: seq<string>, web: Web) returns (eanResultados: seq<Cell>)
    ensures eanResultados == RowOf(row, sites, web)
  {
    eanResultados := [Cell("EAN", row.ean), Cell("Produto", row.term)];
    for i := 0 to |sites|
      invariant eanResultados == RowOf(row, sites[..i], web)
    {
      assert sites[..i + 1][..i] == sites[..i];
      var site := sites[i];
      var termo := if site == MercadoLivre then row.term else row.ean;
      var precos := BuscarPrecos(site, row.ean, web(site, termo));
      eanResultados := eanResultados + [Cell(site, Join(", ", precos))];
    }
    assert sites[..|sites|] == sites;
  }

  /** `resultados`: one row per input row, in input order. */
  function Report(rows: seq<InputRow>, sites: seq<string>, web: Web): (r: seq<seq<Cell>>)
    ensures |r| == |rows|
  {
    if rows == [] then []
    else Report(rows[..|rows| - 1], sites, web) + [RowOf(rows[|rows| - 1], sites, web)]
  }

  /** The main loop over the input rows. */
  method RunAll(rows: seq<InputRow>, sites: seq<string>, web: Web) returns (resultados: seq<seq<Cell>>)
    ensures resultados == Report(rows, sites, web)
  {
    resultados := [];
    for i := 0 to |rows|
      invariant resultados == Report(rows[..i], sites, web)
    {
      assert rows[..i + 1][..i] == rows[..i];
      var eanResultados := ProcessRow(rows[i], sites, web);
      resultados := resultados + [eanResultados];
    }
    assert rows[..|rows|] == rows;
  }

  // ---------------------------------------------------------------------
  // Properties of the rows
  // ---------------------------------------------------------------------

  /** The columns of a row are "EAN", "Produto" and then the sites in order,
      each holding the value computed for it. */
  lemma RowColumns(row: InputRow, sites: seq<string>, web: Web)
    ensures var r := RowOf(row, sites, web);
      && |r| == |sites| + 2
      && r[0] == Cell("EAN", row.ean)
      && r[1] == Cell("Produto", row.term)
      && forall i :: 0 <= i < |sites| ==> r[i + 2] == Cell(sites[i], SiteField(sites[i], row, web))
  {
    RowLayout(row.ean, row.term, sites, (site: string) => SiteField(site, row, web));
  }

  /** With the configured sites, the row's columns are distinct, so the
      list of cells is the dict `ean_resultados`. */
  lemma RowColumnsDistinct(row: InputRow, sites: seq<string>, web: Web)
    requires ValidSites(sites)
    ensures Columns(RowOf(row, sites, web)) == ["EAN", "Produto"] + sites
    ensures Distinct(Columns(RowOf(row, sites, web)))
  {
    RowHeadersDistinct(row.ean, row.term, sites, (site: string) => SiteField(site, row, web));
    RowHeaders(row.ean, row.term, sites, (site: string) => SiteField(site, row, web));
  }

  /** Every input row, empty EAN or not, has its own row at the same
      position. */
  lemma {:induction false} ReportRows(rows: seq<InputRow>, sites: seq<string>, web: Web)
    ensures forall i :: 0 <= i < |rows| ==> Report(rows, sites, web)[i] == RowOf(rows[i], sites, web)
  {
    if rows != [] {
      ReportRows(rows[..|rows| - 1], sites, web);
    }
  }
}
