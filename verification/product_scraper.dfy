/**
 * The decisions of the catalog scraper (fetch_products.py), over the parts of
 * a page the scraper reads: the `href` attributes of the catalog page, and of
 * each product page its `h1` text, its description block, its whole text and
 * its text nodes. Fetching and HTML parsing are inputs.
 */
module ProductScraper {
  import opened Wrappers
  import opened Text
  import opened StringOrder
  import opened Selection

  const BaseUrl := "https://www.shl.com"

  /** `a_tag.get("href") or ""`. */
  function HrefText(href: Option<string>): string {
    href.GetOr("")
  }

  /** The link filter: `href.startswith("/") and "/products/" in href`. */
  predicate IsProductHref(href: string) {
    "/" <= href && Contains(href, "/products/")
  }

  /**
   * `urljoin(base_url, href)` for a root-relative href: a path is appended to
   * the site; a scheme-relative `//host/...` keeps the site's scheme only.
   */
  function JoinUrl(href: string): string
    requires "/" <= href
  {
    if "//" <= href then "https:" + href else BaseUrl + href
  }

  /** `href` is kept by the filter and `url` is what it joins to. */
  predicate LinksTo(href: Option<string>, url: string) {
    IsProductHref(HrefText(href)) && url == JoinUrl(HrefText(href))
  }

  /** `get_catalog_page_links` after the fetch: filter, join, collect into a set, sort. */
  function CatalogLinks(hrefs: seq<Option<string>>): (links: seq<string>)
    ensures StrictlySorted(links)
    ensures forall url :: url in links <==> exists i :: 0 <= i < |hrefs| && LinksTo(hrefs[i], url)
    decreases |hrefs|
  {
    if |hrefs| == 0 then []
    else
      var init := hrefs[..|hrefs| - 1];
      var prev := CatalogLinks(init);
      var h := HrefText(hrefs[|hrefs| - 1]);
      assert forall i :: 0 <= i < |init| ==> init[i] == hrefs[i];
      if IsProductHref(h) then Insert(prev, JoinUrl(h)) else prev
  }

  /** The link list is exactly `sorted(set(...))`: any ascending duplicate-free list of the same links equals it. */
  lemma LinksAreSortedSet(hrefs: seq<Option<string>>, links: seq<string>)
    requires StrictlySorted(links)
    requires forall url :: url in links <==> exists i :: 0 <= i < |hrefs| && LinksTo(hrefs[i], url)
    ensures links == CatalogLinks(hrefs)
  {
    SortedUnique(links, CatalogLinks(hrefs));
  }

  /** An anchor without an `href` reads as `""` and never contributes a link. */
  lemma MissingHrefIgnored(hrefs: seq<Option<string>>)
    ensures CatalogLinks(hrefs + [None]) == CatalogLinks(hrefs)
  {
    assert (hrefs + [None])[..|hrefs|] == hrefs;
  }

  const FallbackLength := 600

  /**
   * The description: the text of the description block when the page has one,
   * otherwise the first 600 characters of the page text (`[:600]`).
   */
  function Description(block: Option<string>, pageText: string): (d: string)
    ensures block.Some? ==> d == block.value
    ensures block.None? ==> d <= pageText
    ensures block.None? ==> |d| == if |pageText| < FallbackLength then |pageText| else FallbackLength
  {
    match block
    case Some(text) => text
    case None => if |pageText| <= FallbackLength then pageText else pageText[..FallbackLength]
  }

  const LabelPhrase := "test type"
  /** Words that make an explicit label name a personality test. */
  const PersonalityTerms: seq<string> := ["personality", "behavior", "behaviour"]
  /** Words that make an explicit label name a knowledge test. */
  const KnowledgeTerms: seq<string> := ["knowledge", "skill"]
  /** Page words that infer a knowledge test. */
  const KnowledgeKeywords: seq<string> :=
    ["knowledge", "skill", "technical", "ability", "aptitude", "problem-solving", "cognitive", "numerical", "verbal"]
  /** Page words that infer a personality test. */
  const PersonalityKeywords: seq<string> :=
    ["personality", "behavior", "behaviour", "motivation", "traits", "values", "interpersonal", "emotional", "leadership"]

  /** `any(word in text for word in words)`. */
  predicate MentionsAny(text: string, words: seq<string>) {
    exists w :: w in words && Contains(text, w)
  }

  /** A text node as the explicit check reads it: `el.strip().lower()`. */
  function NodeText(node: string): string {
    Lower(Strip(node))
  }

  predicate IsLabelNode(node: string) {
    Contains(NodeText(node), LabelPhrase)
  }

  /** The position of the first text node that mentions "test type": where the explicit loop breaks. */
  function FirstLabelNode(nodes: seq<string>): Option<nat> {
    FirstIndex(nodes, IsLabelNode)
  }

  /** The type an explicit label names; personality words are checked before knowledge words. */
  function LabelType(text: string): (t: string)
    ensures t == "P" <==> MentionsAny(text, PersonalityTerms)
    ensures t == "K" <==> !MentionsAny(text, PersonalityTerms) && MentionsAny(text, KnowledgeTerms)
    ensures t == "" <==> !MentionsAny(text, PersonalityTerms) && !MentionsAny(text, KnowledgeTerms)
  {
    if MentionsAny(text, PersonalityTerms) then "P"
    else if MentionsAny(text, KnowledgeTerms) then "K"
    else ""
  }

  /** Step (1): the type named by the first label node, or `""` when there is none. */
  function ExplicitType(nodes: seq<string>): (t: string)
    ensures (forall j :: 0 <= j < |nodes| ==> !IsLabelNode(nodes[j])) ==> t == ""
    ensures t == "K" || t == "P" || t == ""
  {
    match FirstLabelNode(nodes)
    case None => ""
    case Some(i) => LabelType(NodeText(nodes[i]))
  }

  /** Step (2): keyword inference over the lower-cased page text; knowledge keywords are checked first. */
  function InferredType(pageText: string): string {
    var text := Lower(pageText);
    if MentionsAny(text, KnowledgeKeywords) then "K"
    else if MentionsAny(text, PersonalityKeywords) then "P"
    else ""
  }

  /** The two-stage test-type classifier. */
  function TestType(nodes: seq<string>, pageText: string): (t: string)
    ensures t == "K" || t == "P" || t == ""
    ensures ExplicitType(nodes) != "" ==> t == ExplicitType(nodes)
    ensures ExplicitType(nodes) == "" && MentionsAny(Lower(pageText), KnowledgeKeywords) ==> t == "K"
    ensures (ExplicitType(nodes) == "" && !MentionsAny(Lower(pageText), KnowledgeKeywords)
             && MentionsAny(Lower(pageText), PersonalityKeywords)) ==> t == "P"
    ensures t == "" <==> ExplicitType(nodes) == "" && !MentionsAny(Lower(pageText), KnowledgeKeywords)
                         && !MentionsAny(Lower(pageText), PersonalityKeywords)
  {
    var explicit := ExplicitType(nodes);
    if explicit != "" then explicit else InferredType(pageText)
  }

  /** The first label node decides the explicit type, whatever the nodes after it say. */
  lemma FirstLabelNodeDecides(nodes: seq<string>, i: nat)
    requires i < |nodes| && IsLabelNode(nodes[i])
    requires forall j :: 0 <= j < i ==> !IsLabelNode(nodes[j])
    ensures ExplicitType(nodes) == LabelType(NodeText(nodes[i]))
  {
    FirstIndexIs(nodes, IsLabelNode, i);
  }

  /**
   * Only the first label node is examined: nodes after it never change the
   * explicit type, even when it names no type and a later one would.
   */
  lemma LaterNodesIgnored(nodes: seq<string>, more: seq<string>)
    requires FirstLabelNode(nodes).Some?
    ensures ExplicitType(nodes + more) == ExplicitType(nodes)
  {
    FirstIndexIgnoresSuffix(nodes, more, IsLabelNode);
    var i := FirstLabelNode(nodes).value;
    assert (nodes + more)[i] == nodes[i];
  }

  /** What a product page yields once fetched and parsed. */
  datatype Page = Page(heading: Option<string>, descriptionBlock: Option<string>, pageText: string, textNodes: seq<string>)

  /** One scraped catalog row. */
  datatype Product = Product(title: string, url: string, description: string, testType: string)

  /** `extract_product_details(url)` given the fetched page; `None` when the fetch raised. */
  function ExtractDetails(url: string, page: Option<Page>): (p: Option<Product>)
    ensures p.None? <==> page.None?
    ensures p.Some? ==> p.value.url == url
    ensures p.Some? ==> p.value.title == page.value.heading.GetOr("")
    ensures p.Some? ==> p.value.description == Description(page.value.descriptionBlock, page.value.pageText)
    ensures p.Some? ==> p.value.testType == TestType(page.value.textNodes, page.value.pageText)
  {
    match page
    case None => None
    case Some(pg) =>
      Some(Product(pg.heading.GetOr(""), url, Description(pg.descriptionBlock, pg.pageText),
                   TestType(pg.textNodes, pg.pageText)))
  }

  /** A scraped page the export loop writes out: it is not a packaged job-solution page. */
  predicate IsCatalogProduct(p: Product) {
    var combined := Lower(p.title + " " + p.description);
    !(Contains(combined, "pre-packaged") || Contains(combined, "job solution"))
  }

  /** The export loop's row filter: skip failed pages and job-solution pages, keep the rest in order. */
  function KeepRows(results: seq<Option<Product>>): seq<Product> {
    Select(results, IsCatalogProduct)
  }

  datatype ScrapeError =
    /** Fetching the catalog page raised: the exception leaves `scrape_and_export_file`. */
    CatalogPageFailed

  /**
   * `scrape_and_export_file` up to the DataFrame it writes: the catalog page's
   * hrefs (`None` when that fetch raised) and each product page by URL
   * (`None` when that fetch raised) are inputs.
   */
  function Scrape(catalogPage: Option<seq<Option<string>>>, fetch: string -> Option<Page>)
    : (r: Result<seq<Product>, ScrapeError>)
    ensures r.Failure? <==> catalogPage.None?
    ensures r.Success? ==> forall p :: p in r.value ==>
      && p.url in CatalogLinks(catalogPage.value)
      && IsCatalogProduct(p)
      && (p.testType == "K" || p.testType == "P" || p.testType == "")
    ensures r.Success? ==> forall p :: p in r.value ==>
      fetch(p.url).Some? && p == ExtractDetails(p.url, fetch(p.url)).value
    ensures r.Success? ==> forall url :: url in CatalogLinks(catalogPage.value) && fetch(url).Some? ==>
      var p := ExtractDetails(url, fetch(url)).value;
      IsCatalogProduct(p) ==> p in r.value
  {
    match catalogPage
    case None => Failure(CatalogPageFailed)
    case Some(hrefs) =>
      var links := CatalogLinks(hrefs);
      var results := PageResults(links, fetch);
      assert forall url :: url in links ==> exists i :: 0 <= i < |links| && links[i] == url && results[i] == ExtractDetails(url, fetch(url));
      assert forall p :: Some(p) in results ==> fetch(p.url).Some? && p == ExtractDetails(p.url, fetch(p.url)).value by {
        forall p | Some(p) in results
          ensures fetch(p.url).Some? && p == ExtractDetails(p.url, fetch(p.url)).value
        {
          var i :| 0 <= i < |results| && results[i] == Some(p);
          assert results[i] == ExtractDetails(links[i], fetch(links[i]));
        }
      }
      Success(KeepRows(results))
  }

  /** `extract_product_details` applied to every link, in link order. */
  function PageResults(links: seq<string>, fetch: string -> Option<Page>): (results: seq<Option<Product>>)
    ensures |results| == |links|
    ensures forall i :: 0 <= i < |links| ==> results[i] == ExtractDetails(links[i], fetch(links[i]))
  {
    seq(|links|, i requires 0 <= i < |links| => ExtractDetails(links[i], fetch(links[i])))
  }

  /** The exported rows have ascending, pairwise distinct URLs: no product page appears twice. */
  lemma ScrapedUrlsAscending(hrefs: seq<Option<string>>, fetch: string -> Option<Page>)
    ensures var rows := Scrape(Some(hrefs), fetch).value;
            forall k, l :: 0 <= k < l < |rows| ==> Less(rows[k].url, rows[l].url)
  {
    var links := CatalogLinks(hrefs);
    var results := PageResults(links, fetch);
    var before := (p: Product, q: Product) => Less(p.url, q.url);
    assert forall i, j :: 0 <= i < j < |results| && results[i].Some? && results[j].Some? ==>
      before(results[i].value, results[j].value);
    SelectKeepsOrder(results, IsCatalogProduct, before);
  }
}
