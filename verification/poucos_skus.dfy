/** poucos-skus.py: one fixed EAN and one fixed Mercado Livre search term;
    the three sites are searched once, the price texts read from each page
    are kept as text, and a plain-text report lists them site by site. */
module PoucosSkus {
  import opened Common
  import opened Pages

  const Ean := "7503002941409"
  const MlTerm := "Dove Shampoo 400ml"

  /** The looser Mercado Livre filter: a listing naming the product passes
      even without the EAN. */
  const ProductHint := "dove shampoo"

  /** The seller preferred among Amazon listings. */
  const AmazonSeller := "Amazon.com.br"

  const NoPrice := "Nenhum preço encontrado"
  const FetchError := "Erro ao buscar preços"

  /** Listings (or price elements) examined on each site. */
  const Examined := 5

  /** The `sites` dict: each site with the term it is searched for. */
  const Searches := [(MercadoLivre, MlTerm), (Amazon, Ean), (MagazineLuiza, Ean)]

  // ---------------------------------------------------------------------
  // buscar_precos
  // ---------------------------------------------------------------------

  /** The Mercado Livre filter: the EAN, or the product hint, in the
      lower-cased listing text. */
  predicate MlMatches(it: Item, ean: string)
  {
    Contains(Lower(it.text), ean) || Contains(Lower(Lower(it.text)), ProductHint)
  }

  /** The price text a Mercado Livre listing contributes: the whole part,
      followed by a comma and the first cents text when there is one. */
  function MlPrice(it: Item, ean: string): Option<string>
  {
    if !MlMatches(it, ean) then None
    else
      match it.fraction
      case None => None
      case Some(whole) => Some(if it.cents == [] then whole else whole + "," + it.cents[0])
  }

  /** `any("Amazon.com.br" in s.text for s in seller) or not seller`. */
  predicate SoldByAmazon(it: Item)
  {
    it.sellers == [] || exists k :: 0 <= k < |it.sellers| && Contains(it.sellers[k], AmazonSeller)
  }

  /** The price text an Amazon listing contributes,
      `f"{symbol} {whole},{fraction}"`: all three parts must be present
      (a missing one raises and the listing is skipped), and the listing
      must be sold by Amazon or name no seller. */
  function AmazonPrice(it: Item): Option<string>
  {
    if it.priceWhole.None? || it.priceFraction.None? || it.priceSymbol.None? then None
    else if !SoldByAmazon(it) then None
    else Some(it.priceSymbol.value + " " + it.priceWhole.value + "," + it.priceFraction.value)
  }

  /** The texts gathered from Mercado Livre listings, in page order. */
  function MlPrices(items: seq<Item>, ean: string): seq<string>
  {
    Keep(items, (it: Item) => MlPrice(it, ean))
  }

  /** The texts gathered from Amazon listings, in page order. */
  function AmazonPrices(items: seq<Item>): seq<string>
  {
    Keep(items, AmazonPrice)
  }

  /** `precos` once a page has been read. */
  function Gathered(site: string, ean: string, items: seq<Item>, texts: seq<string>): seq<string>
  {
    if site == MercadoLivre then MlPrices(Take(items, Examined), ean)
    else if site == Amazon then AmazonPrices(Take(items, Examined))
    else Take(texts, Examined)
  }

  /** What `buscar_precos` returns: a timed-out wait raises like any other
      error and yields the error label. */
  function BuscarPrecosOf(site: string, ean: string, fetch: Fetch): seq<string>
  {
    match fetch
    case Timeout => [FetchError]
    case Failed => [FetchError]
    case Page(items, texts) =>
      var precos := Gathered(site, ean, items, texts);
      if precos == [] then [NoPrice] else precos
  }

  lemma MlPricesStep(items: seq<Item>, i: nat, ean: string)
    requires i < |items|
    ensures MlPrices(items[..i + 1], ean) == MlPrices(items[..i], ean) + Present(MlPrice(items[i], ean))
  {
    assert items[..i + 1][..i] == items[..i];
  }

  lemma AmazonPricesStep(items: seq<Item>, i: nat)
    requires i < |items|
    ensures AmazonPrices(items[..i + 1]) == AmazonPrices(items[..i]) + Present(AmazonPrice(items[i]))
  {
    assert items[..i + 1][..i] == items[..i];
  }

  /** The loop over the first five Mercado Livre listings. */
  method CollectMl(itens: seq<Item>, ean: string) returns (precos: seq<string>)
    ensures precos == MlPrices(itens, ean)
  {
    precos := [];
    for i := 0 to |itens|
      invariant precos == MlPrices(itens[..i], ean)
    {
      var item := itens[i];
      MlPricesStep(itens, i, ean);
      var textoItem := Lower(item.text);
      if Contains(textoItem, ean) || Contains(Lower(textoItem), ProductHint) {
        if item.fraction.Some? {
          var preco := item.fraction.value;
          if item.cents != [] {
            preco := preco + "," + item.cents[0];
          }
          precos := precos + [preco];
        }
      }
    }
    assert itens[..|itens|] == itens;
  }

  /** The loop over the first five Amazon listings. */
  method CollectAmazon(itens: seq<Item>) returns (precos: seq<string>)
    ensures precos == AmazonPrices(itens)
  {
    precos := [];
    for i := 0 to |itens|
      invariant precos == AmazonPrices(itens[..i])
    {
      var item := itens[i];
      AmazonPricesStep(itens, i);
      if item.priceWhole.Some? && item.priceFraction.Some? && item.priceSymbol.Some? {
        var preco := item.priceSymbol.value + " " + item.priceWhole.value + "," + item.priceFraction.value;
        if SoldByAmazon(item) {
          precos := precos + [preco];
        }
      }
    }
    assert itens[..|itens|] == itens;
  }

  /** `buscar_precos`. */
  method BuscarPrecos(site: string, ean: string, fetch: Fetch) returns (r: seq<string>)
    ensures r == BuscarPrecosOf(site, ean, fetch)
  {
    if !fetch.Page? {
      return [FetchError];
    }
    var precos: seq<string>;
    if site == MercadoLivre {
      precos := CollectMl(Take(fetch.items, Examined), ean);
    } else if site == Amazon {
      precos := CollectAmazon(Take(fetch.items, Examined));
    } else {
      precos := Take(fetch.priceTexts, Examined);
    }
    r := if precos == [] then [NoPrice] else precos;
  }

  // ---------------------------------------------------------------------
  // Properties of buscar_precos
  // ---------------------------------------------------------------------

  /** The outcome of a search: the error label when the page could not be
      read, otherwise between one and five entries, the "no price" label
      standing alone exactly when nothing was gathered. */
  lemma BuscarPrecosOutcome(site: string, ean: string, fetch: Fetch)
    ensures !fetch.Page? ==> BuscarPrecosOf(site, ean, fetch) == [FetchError]
    ensures 1 <= |BuscarPrecosOf(site, ean, fetch)| <= Examined
    ensures fetch.Page? ==>
      var g := Gathered(site, ean, fetch.items, fetch.priceTexts);
      BuscarPrecosOf(site, ean, fetch) == if g == [] then [NoPrice] else g
  {
  }

  /** A text is gathered from Mercado Livre exactly when some listing
      yields it. */
  lemma MlPricesMember(items: seq<Item>, ean: string, t: string)
    ensures t in MlPrices(items, ean) <==>
      exists i :: 0 <= i < |items| && MlPrice(items[i], ean) == Some(t)
  {
    KeepMember(items, (it: Item) => MlPrice(it, ean), t);
  }

  /** A text is gathered from Amazon exactly when some listing yields it. */
  lemma AmazonPricesMember(items: seq<Item>, t: string)
    ensures t in AmazonPrices(items) <==>
      exists i :: 0 <= i < |items| && AmazonPrice(items[i]) == Some(t)
  {
    KeepMember(items, AmazonPrice, t);
  }

  /** The second `lower()` changes nothing: the filter is the EAN or the
      product hint in the lower-cased text. */
  lemma MlFilter(it: Item, ean: string)
    ensures MlMatches(it, ean) <==>
      Contains(Lower(it.text), ean) || Contains(Lower(it.text), ProductHint)
  {
    LowerIdempotent(it.text);
  }

  /** A listing naming the product in any letter case passes the filter,
      whatever its EAN. */
  lemma ProductNameAnyCase(it: Item, ean: string, name: string)
    requires Contains(it.text, name) && Lower(name) == ProductHint
    ensures MlMatches(it, ean)
  {
    LowerContains(it.text, name);
    MlFilter(it, ean);
  }

  /** An Amazon listing that names sellers, none of them Amazon.com.br, is
      left out; a complete listing with no seller, or with Amazon.com.br
      among them, is kept. */
  lemma AmazonSellerPreference(it: Item)
    ensures it.sellers != [] && (forall k :: 0 <= k < |it.sellers| ==> !Contains(it.sellers[k], AmazonSeller))
      ==> AmazonPrice(it) == None
    ensures it.priceWhole.Some? && it.priceFraction.Some? && it.priceSymbol.Some? &&
      (it.sellers == [] || exists k :: 0 <= k < |it.sellers| && Contains(it.sellers[k], AmazonSeller))
      ==> AmazonPrice(it).Some?
  {
  }

  // ---------------------------------------------------------------------
  // The searches and the report file
  // ---------------------------------------------------------------------

  /** One entry of `resultados`. */
  datatype SiteResult = SiteResult(site: string, precos: seq<string>)

  /** `resultados` after searching the first `n` sites. */
  function ResultsOf(web: Web, n: nat): (r: seq<SiteResult>)
    requires n <= |Searches|
    ensures |r| == n
  {
    if n == 0 then []
    else
      var (site, termo) := Searches[n - 1];
      ResultsOf(web, n - 1) + [SiteResult(site, BuscarPrecosOf(site, Ean, web(site, termo)))]
  }

  /** The loop over the sites. */
  method SearchAll(web: Web) returns (resultados: seq<SiteResult>)
    ensures resultados == ResultsOf(web, |Searches|)
  {
    resultados := [];
    for i := 0 to |Searches|
      invariant resultados == ResultsOf(web, i)
    {
      var (site, termo) := Searches[i];
      var precos := BuscarPrecos(site, Ean, web(site, termo));
      resultados := resultados + [SiteResult(site, precos)];
    }
  }

  /** Each site is searched for its own term and reported under its name,
      in the configured order. */
  lemma {:induction false} ResultsOrder(web: Web, n: nat)
    requires n <= |Searches|
    ensures forall i :: 0 <= i < n ==>
      ResultsOf(web, n)[i] ==
        SiteResult(Searches[i].0, BuscarPrecosOf(Searches[i].0, Ean, web(Searches[i].0, Searches[i].1)))
  {
    if n > 0 {
      ResultsOrder(web, n - 1);
    }
  }

  /** `f"  Item {i}: {preco}"`, numbered from 1. */
  function ItemLine(i: nat, preco: string): string
  {
    "  Item " + NatToString(i) + ": " + preco
  }

  /** The item lines of one site. */
  function ItemLines(precos: seq<string>): (r: seq<string>)
    ensures |r| == |precos|
  {
    if precos == [] then []
    else ItemLines(precos[..|precos| - 1]) + [ItemLine(|precos|, precos[|precos| - 1])]
  }

  /** The lines one site writes: its name, its items, a blank line. */
  function SiteBlock(r: SiteResult): seq<string>
  {
    [r.site + ":"] + ItemLines(r.precos) + [""]
  }

  function Blocks(results: seq<SiteResult>): seq<string>
  {
    if results == [] then []
    else Blocks(results[..|results| - 1]) + SiteBlock(results[|results| - 1])
  }

  /** The lines of the report file, without their line breaks. */
  function ReportLines(ean: string, results: seq<SiteResult>): seq<string>
  {
    ["Preços para EAN '" + ean + "':", ""] + Blocks(results)
  }

  /** The writes of one site's item lines. */
  method WriteItems(before: seq<string>, precos: seq<string>) returns (lines: seq<string>)
    ensures lines == before + ItemLines(precos)
  {
    lines := before;
    for i := 0 to |precos|
      invariant lines == before + ItemLines(precos[..i])
    {
      assert precos[..i + 1][..i] == precos[..i];
      lines := lines + [ItemLine(i + 1, precos[i])];
    }
    assert precos[..|precos|] == precos;
  }

  /** The writes to the report file, line by line. */
  method WriteReport(ean: string, results: seq<SiteResult>) returns (lines: seq<string>)
    ensures lines == ReportLines(ean, results)
  {
    var header := ["Preços para EAN '" + ean + "':", ""];
    lines := header;
    for s := 0 to |results|
      invariant lines == header + Blocks(results[..s])
    {
      assert results[..s + 1][..s] == results[..s];
      var r := results[s];
      lines := lines + [r.site + ":"];
      lines := WriteItems(lines, r.precos);
      lines := lines + [""];
    }
    assert results[..|results|] == results;
  }

  /** The item lines are numbered 1, 2, ... in order. */
  lemma {:induction false} ItemLinesNumbered(precos: seq<string>)
    ensures forall i :: 0 <= i < |precos| ==> ItemLines(precos)[i] == ItemLine(i + 1, precos[i])
  {
    if precos != [] {
      ItemLinesNumbered(precos[..|precos| - 1]);
    }
  }

  /** The number in an item line reads back as its position, counted from 1. */
  lemma ItemNumberReadsBack(precos: seq<string>, i: nat)
    requires i < |precos|
    ensures ItemLines(precos)[i] == "  Item " + NatToString(i + 1) + ": " + precos[i]
    ensures DigitsValue(NatToString(i + 1)) == i + 1
  {
    ItemLinesNumbered(precos);
    NatToStringValue(i + 1);
  }

  function BlockLength(results: seq<SiteResult>): nat
  {
    if results == [] then 0
    else BlockLength(results[..|results| - 1]) + |results[|results| - 1].precos| + 2
  }

  /** The report has a two-line header, then for each site its name line,
      one line per price and a blank line. */
  lemma {:induction false} ReportLength(ean: string, results: seq<SiteResult>)
    ensures |ReportLines(ean, results)| == 2 + BlockLength(results)
  {
    BlocksLength(results);
  }

  lemma {:induction false} BlocksLength(results: seq<SiteResult>)
    ensures |Blocks(results)| == BlockLength(results)
  {
    if results != [] {
      BlocksLength(results[..|results| - 1]);
    }
  }

  /** Every site searched appears in the report, with every one of its
      entries on a numbered line. */
  lemma {:induction false} SitesReported(results: seq<SiteResult>, s: nat, i: nat)
    requires s < |results| && i < |results[s].precos|
    ensures results[s].site + ":" in Blocks(results)
    ensures ItemLine(i + 1, results[s].precos[i]) in Blocks(results)
  {
    var last := results[|results| - 1];
    if s < |results| - 1 {
      SitesReported(results[..|results| - 1], s, i);
      assert results[..|results| - 1][s] == results[s];
    } else {
      ItemLinesNumbered(last.precos);
      assert ItemLines(last.precos)[i] in SiteBlock(last);
      assert last.site + ":" == SiteBlock(last)[0];
    }
  }
}
