/** multiplos-skus.py: for every (EAN, product term) row of the input list,
    search three sites, read the prices off each result page with
    `clean_price`, keep the three cheapest, and write one spreadsheet row per
    EAN with the prices formatted as Brazilian currency. */
module MultiplosSkus {
  import opened Common
  import opened PriceText
  import opened Pages
  import opened Sorting

  const NotFound := "Não encontrado"
  const SearchError := "Erro na busca"
  const EmptyTerm := "Termo vazio"

  /** Mercado Livre listings examined, other sites' price elements examined,
      and cheapest prices kept. */
  const ListingsExamined := 10
  const ElementsExamined := 5
  const PricesKept := 3

  /** One element of the list `find_prices` returns: a float price or a
      string label. */
  datatype PriceEntry = Amount(value: real) | Label(text: string)

  // ---------------------------------------------------------------------
  // find_prices
  // ---------------------------------------------------------------------

  /** The text `f"{price_whole},{price_cents}"` built from a listing's price
      markup, cents defaulting to "00"; `None` when the whole part is missing
      (the lookup raises and the listing is skipped). */
  function MlPriceText(it: Item): Option<string>
  {
    match it.fraction
    case None => None
    case Some(whole) => Some(whole + "," + (if it.cents == [] then "00" else it.cents[0]))
  }

  /** The price one Mercado Livre listing contributes: only a listing whose
      lower-cased text contains the EAN, and only when its price text reads
      as a number. */
  function MlItemPrice(it: Item, ean: string): Option<real>
  {
    if !Contains(Lower(it.text), ean) then None
    else
      match MlPriceText(it)
      case None => None
      case Some(t) => CleanPrice(Str(t))
  }

  /** The prices collected from Mercado Livre listings, in page order. */
  function MlPrices(items: seq<Item>, ean: string): seq<real>
  {
    Keep(items, (it: Item) => MlItemPrice(it, ean))
  }

  /** The price a price element of Amazon or Magazine Luiza contributes. */
  function ElementPrice(text: string): Option<real>
  {
    CleanPrice(Str(text))
  }

  /** The prices collected from the texts of price elements, in page order. */
  function ElementPrices(texts: seq<string>): seq<real>
  {
    Keep(texts, ElementPrice)
  }

  /** `prices_found` once a page has been read: the first ten listings on
      Mercado Livre, the first five price elements elsewhere. */
  function Collected(site: string, ean: string, items: seq<Item>, texts: seq<string>): seq<real>
  {
    if site == MercadoLivre then MlPrices(Take(items, ListingsExamined), ean)
    else ElementPrices(Take(texts, ElementsExamined))
  }

  function Amounts(ps: seq<real>): (r: seq<PriceEntry>)
    ensures |r| == |ps|
    ensures forall i :: 0 <= i < |ps| ==> r[i] == Amount(ps[i])
  {
    seq(|ps|, i requires 0 <= i < |ps| => Amount(ps[i]))
  }

  /** `sorted(prices_found)[:3] if prices_found else ["Não encontrado"]`. */
  function Cheapest(prices: seq<real>): seq<PriceEntry>
  {
    if prices == [] then [Label(NotFound)] else Amounts(Take(Sort(prices), PricesKept))
  }

  /** What `find_prices` returns for a fetch outcome. */
  function FindPricesOf(site: string, ean: string, fetch: Fetch): seq<PriceEntry>
  {
    match fetch
    case Timeout => [Label(NotFound)]
    case Failed => [Label(SearchError)]
    case Page(items, texts) => Cheapest(Collected(site, ean, items, texts))
  }

  lemma MlPricesStep(items: seq<Item>, i: nat, ean: string)
    requires i < |items|
    ensures MlPrices(items[..i + 1], ean) == MlPrices(items[..i], ean) + Present(MlItemPrice(items[i], ean))
  {
    assert items[..i + 1][..i] == items[..i];
  }

  /** The loop over the first ten Mercado Livre listings. */
  method CollectListings(items: seq<Item>, ean: string) returns (pricesFound: seq<real>)
    ensures pricesFound == MlPrices(items, ean)
  {
    pricesFound := [];
    for i := 0 to |items|
      invariant pricesFound == MlPrices(items[..i], ean)
    {
      var it := items[i];
      MlPricesStep(items, i, ean);
      if Contains(Lower(it.text), ean) && it.fraction.Some? {
        var cents := if it.cents != [] then it.cents[0] else "00";
        var text := it.fraction.value + "," + cents;
        var value := CleanPrice(Str(text));
        assert MlPriceText(it).value == text;
        MlItemPriceRead(it, ean);
        if value.Some? {
          pricesFound := pricesFound + [value.value];
        }
      }
    }
    assert items[..|items|] == items;
  }

  /** The loop over the first five price elements. */
  method CollectElements(texts: seq<string>) returns (pricesFound: seq<real>)
    ensures pricesFound == ElementPrices(texts)
  {
    pricesFound := [];
    for i := 0 to |texts|
      invariant pricesFound == ElementPrices(texts[..i])
    {
      assert texts[..i + 1][..i] == texts[..i];
      var value := CleanPrice(Str(texts[i]));
      if value.Some? {
        pricesFound := pricesFound + [value.value];
      }
    }
    assert texts[..|texts|] == texts;
  }

  /** `find_prices`. */
  method FindPrices(site: string, ean: string, fetch: Fetch) returns (r: seq<PriceEntry>)
    ensures r == FindPricesOf(site, ean, fetch)
  {
    if fetch.Timeout? {
      return [Label(NotFound)];
    }
    if fetch.Failed? {
      return [Label(SearchError)];
    }
    var pricesFound: seq<real>;
    if site == MercadoLivre {
      pricesFound := CollectListings(Take(fetch.items, ListingsExamined), ean);
    } else {
      pricesFound := CollectElements(Take(fetch.priceTexts, ElementsExamined));
    }
    if pricesFound == [] {
      r := [Label(NotFound)];
    } else {
      r := Amounts(Take(Sort(pricesFound), PricesKept));
    }
  }

  // ---------------------------------------------------------------------
  // Properties of find_prices
  // ---------------------------------------------------------------------

  /** Listings contribute independently, in page order. */
  lemma MlPricesAppend(a: seq<Item>, b: seq<Item>, ean: string)
    ensures MlPrices(a + b, ean) == MlPrices(a, ean) + MlPrices(b, ean)
  {
    KeepAppend(a, b, (it: Item) => MlItemPrice(it, ean));
  }

  /** A value is collected from Mercado Livre exactly when some listing
      yields it. */
  lemma MlPricesMember(items: seq<Item>, ean: string, x: real)
    ensures x in MlPrices(items, ean) <==>
      exists i :: 0 <= i < |items| && MlItemPrice(items[i], ean) == Some(x)
  {
    KeepMember(items, (it: Item) => MlItemPrice(it, ean), x);
  }

  /** A value is collected from Amazon or Magazine Luiza exactly when one of
      the price texts reads as it. */
  lemma ElementPricesMember(texts: seq<string>, x: real)
    ensures x in ElementPrices(texts) <==>
      exists i :: 0 <= i < |texts| && CleanPrice(Str(texts[i])) == Some(x)
  {
    KeepMember(texts, ElementPrice, x);
  }

  lemma MlItemPriceRead(it: Item, ean: string)
    requires Contains(Lower(it.text), ean) && it.fraction.Some?
    ensures MlItemPrice(it, ean) == CleanPrice(Str(MlPriceText(it).value))
  {
  }

  /** A Mercado Livre listing contributes nothing unless it mentions the EAN
      and has a whole-part element. */
  lemma MlItemSkipped(it: Item, ean: string)
    ensures MlItemPrice(it, ean).Some? ==> Contains(Lower(it.text), ean) && it.fraction.Some?
  {
  }

  /** A listing without a cents element reads as the digits of its whole
      part, in reais. */
  lemma MlItemWithoutCents(it: Item, ean: string)
    requires Contains(Lower(it.text), ean) && it.fraction.Some? && it.cents == []
    ensures MlItemPrice(it, ean).Some?
    ensures MlItemPrice(it, ean).value == DigitsValue(DigitsOf(it.fraction.value)) as real
  {
    var w, t := it.fraction.value, MlPriceText(it).value;
    assert t == w + "," + "00";
    assert DigitsValue("00") == 0 by {
      assert "00"[..1] == "0" && "0"[..0] == [];
    }
    ComposedFacts(w, "00");
    ComposedValue(t, DigitsOf(w), "00");
    MlItemPriceRead(it, ean);
  }

  /** A listing whose cents element holds two digits reads as the digits of
      its whole part in reais plus those cents. */
  lemma MlItemWithCents(it: Item, ean: string)
    requires Contains(Lower(it.text), ean) && it.fraction.Some? && it.cents != []
    requires AllDigits(it.cents[0]) && |it.cents[0]| == 2
    ensures MlItemPrice(it, ean).Some?
    ensures MlItemPrice(it, ean).value ==
      DigitsValue(DigitsOf(it.fraction.value)) as real + DigitsValue(it.cents[0]) as real / 100.0
  {
    var w, t := it.fraction.value, MlPriceText(it).value;
    assert t == w + "," + it.cents[0];
    ComposedFacts(w, it.cents[0]);
    ComposedValue(t, DigitsOf(w), it.cents[0]);
    MlItemPriceRead(it, ean);
  }

  /** Listings beyond the tenth never change the Mercado Livre outcome, and
      price elements beyond the fifth never change the outcome of the other
      sites.  Mercado Livre reads only listings and the other sites only
      price elements, so the other list may be anything. */
  lemma OnlyLeadingElementsRead(site: string, ean: string, items: seq<Item>, texts: seq<string>,
                                moreItems: seq<Item>, moreTexts: seq<string>)
    requires || (site == MercadoLivre && |items| >= ListingsExamined)
             || (site != MercadoLivre && |texts| >= ElementsExamined)
    ensures FindPricesOf(site, ean, Page(items + moreItems, texts + moreTexts)) ==
      FindPricesOf(site, ean, Page(items, texts))
  {
    if site == MercadoLivre {
      assert Take(items + moreItems, ListingsExamined) == Take(items, ListingsExamined);
    } else {
      assert Take(texts + moreTexts, ElementsExamined) == Take(texts, ElementsExamined);
    }
  }

  /** The numbers carried by a list of entries (0 for a label). */
  function Values(r: seq<PriceEntry>): (v: seq<real>)
    ensures |v| == |r|
    ensures forall i :: 0 <= i < |r| && r[i].Amount? ==> v[i] == r[i].value
  {
    seq(|r|, i requires 0 <= i < |r| => if r[i].Amount? then r[i].value else 0.0)
  }

  /** From a non-empty list of prices, the cheapest three (or all, when
      fewer) are kept, ascending, and no price left out is cheaper than one
      kept. */
  lemma CheapestSelection(prices: seq<real>)
    requires prices != []
    ensures var r := Cheapest(prices);
      && |r| == Min(PricesKept, |prices|)
      && (forall i :: 0 <= i < |r| ==> r[i].Amount?)
      && Ascending(Values(r))
      && multiset(Values(r)) <= multiset(prices)
      && forall x, y :: x in multiset(prices) - multiset(Values(r)) && y in Values(r) ==> y <= x
  {
    var k := Take(Sort(prices), PricesKept);
    SmallestPrefix(prices, PricesKept);
    assert Values(Amounts(k)) == k;
  }

  /** The three outcomes of `find_prices`: the error label exactly when
      reading the page failed; "Não encontrado" exactly when the wait timed
      out or no price was collected; otherwise the cheapest prices. */
  lemma FindPricesOutcome(site: string, ean: string, fetch: Fetch)
    ensures FindPricesOf(site, ean, fetch) == [Label(SearchError)] <==> fetch.Failed?
    ensures FindPricesOf(site, ean, fetch) == [Label(NotFound)] <==>
      fetch.Timeout? || (fetch.Page? && Collected(site, ean, fetch.items, fetch.priceTexts) == [])
    ensures fetch.Page? && Collected(site, ean, fetch.items, fetch.priceTexts) != [] ==>
      FindPricesOf(site, ean, fetch) == Cheapest(Collected(site, ean, fetch.items, fetch.priceTexts))
  {
    if fetch.Page? {
      var c := Collected(site, ean, fetch.items, fetch.priceTexts);
      if c != [] {
        CheapestSelection(c);
        assert FindPricesOf(site, ean, fetch)[0].Amount?;
      }
    }
  }

  // ---------------------------------------------------------------------
  // Formatting: f"R$ {p:.2f}".replace('.', ',')
  // ---------------------------------------------------------------------

  /** Two decimal digits of `k < 100`, with a leading zero. */
  function TwoDigits(k: nat): (r: string)
    requires k < 100
    ensures |r| == 2 && AllDigits(r)
    ensures DigitsValue(r) == k
  {
    var r := [DigitChar(k / 10), DigitChar(k % 10)];
    assert r[..1] == [DigitChar(k / 10)] && r[..1][..0] == [];
    assert DigitsValue(r[..1]) == k / 10;
    assert DigitsValue(r) == (k / 10) * 10 + k % 10;
    r
  }

  /** `f"{p:.2f}"`, rounding half-cents up. */
  function Fixed2(p: real): (r: string)
    decreases if p < 0.0 then 1 else 0
  {
    if p < 0.0 then "-" + Fixed2(-p)
    else
      var c := (p * 100.0 + 0.5).Floor;
      NatToString(c / 100) + "." + TwoDigits(c % 100)
  }

  function FormatEntry(e: PriceEntry): string
  {
    match e
    case Amount(p) => ReplaceChar("R$ " + Fixed2(p), '.', ',')
    case Label(t) => t
  }

  function FormatAll(es: seq<PriceEntry>): (r: seq<string>)
    ensures |r| == |es|
  {
    if es == [] then [] else FormatAll(es[..|es| - 1]) + [FormatEntry(es[|es| - 1])]
  }

  /** A whole number of cents `n` is written as its reais, a comma and two
      cent digits. */
  lemma FormatHundredths(n: nat)
    ensures FormatEntry(Amount(n as real / 100.0)) ==
      "R$ " + NatToString(n / 100) + "," + TwoDigits(n % 100)
  {
    var p := n as real / 100.0;
    assert p * 100.0 + 0.5 == n as real + 0.5;
    assert (p * 100.0 + 0.5).Floor == n;
    var w, t := NatToString(n / 100), TwoDigits(n % 100);
    assert Fixed2(p) == w + "." + t;
    assert "R$ " + Fixed2(p) == ("R$ " + w) + "." + t;
    AllDigitsNoDot(w);
    AllDigitsNoDot(t);
    assert '.' !in "R$ ";
    ReplaceCharAppend("R$ " + w + ".", t, '.', ',');
    ReplaceCharAppend("R$ " + w, ".", '.', ',');
    ReplaceCharAppend("R$ ", w, '.', ',');
    ReplaceCharAbsent("R$ ", '.', ',');
    ReplaceCharAbsent(w, '.', ',');
    ReplaceCharAbsent(t, '.', ',');
    assert ReplaceChar(".", '.', ',') == "," by {
      assert "."[..0] == [];
    }
  }

  lemma PrefixNoDigits(w: string)
    requires AllDigits(w)
    ensures DigitsOf("R$ " + w) == w
  {
    DigitsOfAppend("R$ ", w);
    DigitsOfDigits(w);
    assert DigitsOf("R$ ") == [] by {
      assert "R$ "[..2] == "R$" && "R$"[..1] == "R" && "R"[..0] == [];
    }
  }

  lemma CentsSplit(n: nat)
    ensures (n / 100) as real + (n % 100) as real / 100.0 == n as real / 100.0
  {
    assert n == (n / 100) * 100 + n % 100;
  }

  lemma ReadBackFormatted(s: string, w: string, t: string)
    requires s == "R$ " + w + "," + t
    requires AllDigits(w) && AllDigits(t) && |t| == 2
    ensures CleanPrice(Str(s)).Some?
    ensures CleanPrice(Str(s)).value == DigitsValue(w) as real + DigitsValue(t) as real / 100.0
  {
    PrefixNoDigits(w);
    ComposedFacts("R$ " + w, t);
    ComposedValue(s, w, t);
  }



  /** A price in whole cents survives the spreadsheet: `clean_price` reads the
      formatted text back as the same amount. */
  lemma FormatRoundTrip(n: nat)
    ensures CleanPrice(Str(FormatEntry(Amount(n as real / 100.0)))).Some?
    ensures CleanPrice(Str(FormatEntry(Amount(n as real / 100.0)))).value == n as real / 100.0
  {
    var w, t := NatToString(n / 100), TwoDigits(n % 100);
    FormatHundredths(n);
    NatToStringValue(n / 100);
    ReadBackFormatted(FormatEntry(Amount(n as real / 100.0)), w, t);
    CentsSplit(n);
  }


  // ---------------------------------------------------------------------
  // Rows of the spreadsheet
  // ---------------------------------------------------------------------

  /** Mercado Livre is searched by product term, the others by EAN. */
  function SearchTerm(site: string, row: InputRow): string
  {
    if site == MercadoLivre then row.term else row.ean
  }

  /** The value stored under a site's column. */
  function SiteField(site: string, row: InputRow, web: Web): string
  {
    var term := SearchTerm(site, row);
    if term == "" then EmptyTerm
    else Join(", ", FormatAll(FindPricesOf(site, row.ean, web(site, term))))
  }

  /** `ean_results` after the sites loop has visited `sites`. */
  function RowOf(row: InputRow, sites: seq<string>, web: Web): seq<Cell>
  {
    ResultRow(row.ean, row.term, sites, (site: string) => SiteField(site, row, web))
  }

  /** `", ".join` over the formatted prices. */
  method FormatPrices(prices: seq<PriceEntry>) returns (text: string)
    ensures text == Join(", ", FormatAll(prices))
  {
    var formatted: seq<string> := [];
    for i := 0 to |prices|
      invariant formatted == FormatAll(prices[..i])
    {
      assert prices[..i + 1][..i] == prices[..i];
      formatted := formatted + [FormatEntry(prices[i])];
    }
    assert prices[..|prices|] == prices;
    text := Join(", ", formatted);
  }

  /** The body of the main loop for one row with a non-empty EAN. */
  method ProcessRow(row: InputRow, sites: seq<string>, web: Web) returns (eanResults: seq<Cell>)
    ensures eanResults == RowOf(row, sites, web)
  {
    eanResults := [Cell("EAN", row.ean), Cell("Produto", row.term)];
    for i := 0 to |sites|
      invariant eanResults == RowOf(row, sites[..i], web)
    {
      assert sites[..i + 1][..i] == sites[..i];
      var site := sites[i];
      var searchTerm := if site == MercadoLivre then row.term else row.ean;
      if searchTerm == "" {
        eanResults := eanResults + [Cell(site, EmptyTerm)];
      } else {
        var prices := FindPrices(site, row.ean, web(site, searchTerm));
        var text := FormatPrices(prices);
        eanResults := eanResults + [Cell(site, text)];
      }
    }
    assert sites[..|sites|] == sites;
  }

  /** The row an input row contributes: none when its EAN is empty. */
  function ReportEntry(row: InputRow, sites: seq<string>, web: Web): Option<seq<Cell>>
  {
    if row.ean == "" then None else Some(RowOf(row, sites, web))
  }

  /** `all_results`: one row per input row with a non-empty EAN, in input
      order. */
  function Report(rows: seq<InputRow>, sites: seq<string>, web: Web): seq<seq<Cell>>
  {
    Keep(rows, (row: InputRow) => ReportEntry(row, sites, web))
  }

  /** The main loop over the input rows. */
  method RunAll(rows: seq<InputRow>, sites: seq<string>, web: Web) returns (allResults: seq<seq<Cell>>)
    ensures allResults == Report(rows, sites, web)
  {
    allResults := [];
    for i := 0 to |rows|
      invariant allResults == Report(rows[..i], sites, web)
    {
      assert rows[..i + 1][..i] == rows[..i];
      var row := rows[i];
      if row.ean == "" {
        continue;
      }
      var eanResults := ProcessRow(row, sites, web);
      allResults := allResults + [eanResults];
    }
    assert rows[..|rows|] == rows;
  }

  // ---------------------------------------------------------------------
  // Properties of the rows
  // ---------------------------------------------------------------------

  /** The columns of a row are "EAN", "Produto" and then the sites in order,
      each holding the value computed for it. */
  lemma RowColumns(row: InputRow, sites: seq<string>, web: Web)
    ensures var r := RowOf(row, sites, web);
      && |r| == |sites| + 2
      && r[0] == Cell("EAN", row.ean)
      && r[1] == Cell("Produto", row.term)
      && forall i :: 0 <= i < |sites| ==> r[i + 2] == Cell(sites[i], SiteField(sites[i], row, web))
  {
    RowLayout(row.ean, row.term, sites, (site: string) => SiteField(site, row, web));
  }

  /** With the configured sites, the row's columns are distinct, so the
      list of cells is the dict `ean_results`. */
  lemma RowColumnsDistinct(row: InputRow, sites: seq<string>, web: Web)
    requires ValidSites(sites)
    ensures Columns(RowOf(row, sites, web)) == ["EAN", "Produto"] + sites
    ensures Distinct(Columns(RowOf(row, sites, web)))
  {
    RowHeadersDistinct(row.ean, row.term, sites, (site: string) => SiteField(site, row, web));
    RowHeaders(row.ean, row.term, sites, (site: string) => SiteField(site, row, web));
  }

  /** With the three configured sites, a row's columns are "EAN",
      "Produto", "Mercado Livre", "Amazon" and "Magazine Luiza", all
      distinct. */
  lemma ConfiguredRowColumns(row: InputRow, web: Web)
    ensures Columns(RowOf(row, Sites, web)) == ["EAN", "Produto", MercadoLivre, Amazon, MagazineLuiza]
    ensures Distinct(Columns(RowOf(row, Sites, web)))
  {
    ConfiguredSitesValid();
    RowColumnsDistinct(row, Sites, web);
  }

  lemma {:induction false} FormatAllHead(es: seq<PriceEntry>)
    requires es != []
    ensures FormatAll(es)[0] == FormatEntry(es[0])
  {
    if |es| > 1 {
      FormatAllHead(es[..|es| - 1]);
    }
  }

  /** A site's column says "Termo vazio" exactly when its search term is
      empty: every value `find_prices` leads to starts with another letter. */
  lemma EmptyTermField(site: string, row: InputRow, web: Web)
    ensures SiteField(site, row, web) == EmptyTerm <==> SearchTerm(site, row) == ""
  {
    var term := SearchTerm(site, row);
    if term != "" {
      var r := FindPricesOf(site, row.ean, web(site, term));
      FindPricesOutcome(site, row.ean, web(site, term));
      var head := FormatEntry(r[0]);
      if r[0].Amount? {
        ReplaceCharHead("R$ " + Fixed2(r[0].value), '.', ',');
        assert head[0] == 'R';
      } else {
        assert head == NotFound || head == SearchError;
      }
      FormatAllHead(r);
      JoinHead(", ", FormatAll(r));
      assert SiteField(site, row, web)[0] != 'T';
    }
  }

  /** Input rows are processed independently, in order. */
  lemma ReportAppend(a: seq<InputRow>, b: seq<InputRow>, sites: seq<string>, web: Web)
    ensures Report(a + b, sites, web) == Report(a, sites, web) + Report(b, sites, web)
  {
    KeepAppend(a, b, (row: InputRow) => ReportEntry(row, sites, web));
  }

  /** Every row of the report belongs to an input row with a non-empty EAN,
      and every such input row has its row in the report. */
  lemma ReportRows(rows: seq<InputRow>, sites: seq<string>, web: Web, r: seq<Cell>)
    ensures r in Report(rows, sites, web) <==>
      exists i :: 0 <= i < |rows| && rows[i].ean != "" && r == RowOf(rows[i], sites, web)
  {
    KeepMember(rows, (row: InputRow) => ReportEntry(row, sites, web), r);
  }

  function NonEmptyEans(rows: seq<InputRow>): nat
  {
    if rows == [] then 0
    else NonEmptyEans(rows[..|rows| - 1]) + (if rows[|rows| - 1].ean == "" then 0 else 1)
  }

  /** One report row per input row with a non-empty EAN. */
  lemma {:induction false} ReportLength(rows: seq<InputRow>, sites: seq<string>, web: Web)
    ensures |Report(rows, sites, web)| == NonEmptyEans(rows)
  {
    if rows != [] {
      ReportLength(rows[..|rows| - 1], sites, web);
    }
  }
}
