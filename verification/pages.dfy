/** What the scripts read from a rendered search page, as plain values, and
    the shape of the spreadsheet rows two of them write.  The browser, the
    waiting and the CSS selectors are not modelled: a fetch is an outcome
    handed in, and each result item carries the texts of the sub-elements
    the scripts look up inside it. */
module Pages {
  import opened Common

  const MercadoLivre := "Mercado Livre"
  const Amazon := "Amazon"
  const MagazineLuiza := "Magazine Luiza"

  /** The keys of every script's `sites` dict, in insertion order. */
  const Sites := [MercadoLivre, Amazon, MagazineLuiza]

  /** One result listing of a search page.  A sub-element that is absent is
      `None`; looking it up with `find_element` raises in the scripts.
      - `text`: the whole listing's visible text;
      - `fraction`: the first `span.andes-money-amount__fraction` (the whole
        part of a Mercado Livre price);
      - `cents`: every `span.andes-money-amount__cents`;
      - `priceWhole`, `priceFraction`, `priceSymbol`: the first
        `span.a-price-whole`, `span.a-price-fraction`, `span.a-price-symbol`
        of an Amazon listing;
      - `sellers`: every `span.a-size-small` of an Amazon listing. */
  datatype Item = Item(
    text: string,
    fraction: Option<string>,
    cents: seq<string>,
    priceWhole: Option<string>,
    priceFraction: Option<string>,
    priceSymbol: Option<string>,
    sellers: seq<string>)

  /** The outcome of loading one search URL and waiting for the site's price
      selector: the wait timed out, some other error was raised while reading
      the page, or the page was read.  `items` are the elements of the
      site's listing selector, `priceTexts` the texts of the elements of its
      price selector, both in page order. */
  datatype Fetch =
    | Timeout
    | Failed
    | Page(items: seq<Item>, priceTexts: seq<string>)

  /** `xs[:n]` in Python: the first `n` elements, or all of them. */
  function Take<T>(xs: seq<T>, n: nat): (r: seq<T>)
    ensures |r| == Min(n, |xs|)
    ensures r == xs[..|r|]
  {
    if |xs| <= n then xs else xs[..n]
  }

  /** Configured site names: distinct (they are the keys of a dict) and
      distinct from the two fixed report columns. */
  predicate ValidSites(sites: seq<string>)
  {
    (forall i, j :: 0 <= i < j < |sites| ==> sites[i] != sites[j])
    && "EAN" !in sites && "Produto" !in sites
  }

  /** The configured sites meet that requirement. */
  lemma ConfiguredSitesValid()
    ensures ValidSites(Sites)
  {
  }

  /** The web during a run: the outcome of searching a site for a term. */
  type Web = (string, string) -> Fetch

  /** One row of the input list: the `ean` and `termo_mercado_livre`
      columns, as strings. */
  datatype InputRow = InputRow(ean: string, term: string)

  /** One entry of a result dict, in insertion order. */
  datatype Cell = Cell(column: string, value: string)

  function Columns(r: seq<Cell>): (c: seq<string>)
    ensures |c| == |r|
    ensures forall i :: 0 <= i < |r| ==> c[i] == r[i].column
  {
    seq(|r|, i requires 0 <= i < |r| => r[i].column)
  }

  predicate Distinct(c: seq<string>)
  {
    forall i, j :: 0 <= i < j < |c| ==> c[i] != c[j]
  }

  /** With valid sites, the headers of a result row are distinct. */
  lemma DistinctHeaders(sites: seq<string>)
    requires ValidSites(sites)
    ensures Distinct(["EAN", "Produto"] + sites)
  {
    var c := ["EAN", "Produto"] + sites;
    forall i, j | 0 <= i < j < |c| ensures c[i] != c[j] {
      if j >= 2 {
        assert c[j] == sites[j - 2];
        assert c[j] in sites;
        if i >= 2 {
          assert c[i] == sites[i - 2];
        }
      }
    }
  }

  /** A result dict built by the sites loop: "EAN" and "Produto" first, then
      one cell per site, in order, holding `field(site)`. */
  function ResultRow(ean: string, term: string, sites: seq<string>, field: string -> string): (r: seq<Cell>)
    ensures |r| == |sites| + 2
  {
    if sites == [] then [Cell("EAN", ean), Cell("Produto", term)]
    else
      var site := sites[|sites| - 1];
      ResultRow(ean, term, sites[..|sites| - 1], field) + [Cell(site, field(site))]
  }

  /** The cells of a result row: the EAN, the term, then each site's field
      in site order. */
  lemma {:induction false} RowLayout(ean: string, term: string, sites: seq<string>, field: string -> string)
    ensures var r := ResultRow(ean, term, sites, field);
      && r[0] == Cell("EAN", ean)
      && r[1] == Cell("Produto", term)
      && forall i :: 0 <= i < |sites| ==> r[i + 2] == Cell(sites[i], field(sites[i]))
  {
    if sites != [] {
      RowLayout(ean, term, sites[..|sites| - 1], field);
    }
  }

  /** The column headers of a result row. */
  lemma RowHeaders(ean: string, term: string, sites: seq<string>, field: string -> string)
    ensures Columns(ResultRow(ean, term, sites, field)) == ["EAN", "Produto"] + sites
  {
    var r := ResultRow(ean, term, sites, field);
    RowLayout(ean, term, sites, field);
    var h := ["EAN", "Produto"] + sites;
    forall i | 0 <= i < |r| ensures Columns(r)[i] == h[i] {
      if i >= 2 {
        assert r[(i - 2) + 2].column == sites[i - 2];
      }
    }
  }

  /** With valid sites, the headers of a result row are distinct, as the
      keys of a dict are. */
  lemma RowHeadersDistinct(ean: string, term: string, sites: seq<string>, field: string -> string)
    requires ValidSites(sites)
    ensures Distinct(Columns(ResultRow(ean, term, sites, field)))
  {
    RowHeaders(ean, term, sites, field);
    DistinctHeaders(sites);
  }
}
