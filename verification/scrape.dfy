/**
 * The decision logic of `POST` in app/api/scrape/route.ts: normalise and
 * check the identifier, build the dealer page URL, scan the page with four
 * selectors in a fixed order, and answer 400, 500, 404 or 200.
 *
 * The browser is an oracle: `browse(url)` is what `page.goto(url)` leaves
 * behind, either a failure or a page whose `locate(selector)` gives what
 * `page.locator(selector).first()` finds.
 */
module Scrape {
  import opened Wrappers
  import opened BaseDomain
  import opened SearchParams
  import opened VariantLinks

  /** The four selectors, as opaque labels; their CSS text is in the comments. */
  datatype Selector =
    | QuoteNewHref        // a[href*="insurance.toyota.com.au/quote/quote-new"]
    | ButtonQuoteHref     // a.button-solid[href*="insurance.toyota.com.au/quote"]
    | QuoteText           // a:has-text("Get a Quote")
    | ButtonQuoteText     // a.button-solid:has-text("Get a Quote")

  /** `candidateSelectors`: most specific first. */
  const CandidateSelectors: seq<Selector> := [QuoteNewHref, ButtonQuoteHref, QuoteText, ButtonQuoteText]

  /** The first element a selector finds: none (a count of 0), or one with its `href` attribute (None when it has none). */
  datatype Match = NoElement | Element(href: Option<Href>)

  /**
   * The dealer page after `page.goto`: it failed (browser launch, navigation,
   * timeout, or a locator call that throws during the scan, all of which
   * answer 500 with the dealer page), or it loaded and every locator call answers.
   */
  datatype Page = FetchFailed | Loaded(locate: Selector -> Match)

  /** JavaScript truthiness of the `href` variable: not null and not the empty string. */
  predicate IsTruthy(href: Option<Href>) {
    href.Some? && href.value != Unparseable("")
  }

  /** A selector ends the scan when it finds an element whose `href` is truthy. */
  predicate Yields(m: Match) {
    m.Element? && IsTruthy(m.href)
  }

  /** The earliest selector, in list order, that yields; None when none does. */
  function FirstYield(sels: seq<Selector>, locate: Selector -> Match): (r: Option<nat>)
    ensures r.Some? ==> r.value < |sels| && Yields(locate(sels[r.value])) &&
                        forall j :: 0 <= j < r.value ==> !Yields(locate(sels[j]))
    ensures r.None? ==> forall j :: 0 <= j < |sels| ==> !Yields(locate(sels[j]))
  {
    if sels == [] then None
    else if Yields(locate(sels[0])) then Some(0)
    else
      match FirstYield(sels[1..], locate)
      case None =>
        assert forall j :: 0 < j < |sels| ==> sels[j] == sels[1..][j - 1];
        None
      case Some(i) =>
        assert forall j :: 0 < j <= i + 1 ==> sels[j] == sels[1..][j - 1];
        Some(i + 1)
  }

  /**
   * The selector loop: `href` takes the attribute of each selector's first
   * element, and the loop stops at the first truthy one. Afterwards `href` is
   * the earliest yielding selector's attribute, or falsy when none yields.
   */
  method ScanSelectors(locate: Selector -> Match) returns (href: Option<Href>)
    ensures match FirstYield(CandidateSelectors, locate)
            case Some(i) => href == locate(CandidateSelectors[i]).href && IsTruthy(href)
            case None => !IsTruthy(href)
  {
    href := None;
    for i := 0 to |CandidateSelectors|
      invariant !IsTruthy(href)
      invariant forall j :: 0 <= j < i ==> !Yields(locate(CandidateSelectors[j]))
    {
      var m := locate(CandidateSelectors[i]);
      if m.Element? {
        href := m.href;
        if IsTruthy(href) {
          break;
        }
      }
    }
  }

  /** The HTTP answer of the endpoint. */
  datatype Response =
    | InvalidBaseDomain                                                   // 400
    | LinkNotFound(targetUrl: string)                                     // 404, sent as `sourceUrl`
    | FetchFailure(dealerPage: string)                                    // 500
    | Found(sourceUrl: Href, serviceUrl: Href, partsUrl: Href, dealerPage: string)  // 200

  function Status(r: Response): int {
    match r
    case InvalidBaseDomain => 400
    case LinkNotFound(_) => 404
    case FetchFailure(_) => 500
    case Found(_, _, _, _) => 200
  }

  /** The response the endpoint gives for the request field `field` when the browser behaves as `browse`. */
  function Respond(field: Option<string>, browse: string -> Page): Response {
    var baseDomain := Normalize(field);
    if baseDomain == [] || !IsValidBaseDomain(baseDomain) then InvalidBaseDomain
    else
      var targetUrl := BuildDealerUrl(baseDomain);
      match browse(targetUrl)
      case FetchFailed => FetchFailure(targetUrl)
      case Loaded(locate) =>
        match FirstYield(CandidateSelectors, locate)
        case None => LinkNotFound(targetUrl)
        case Some(i) =>
          var href := locate(CandidateSelectors[i]).href.value;
          Found(href, Variant(href, ServiceCampaign), Variant(href, PartsCampaign), targetUrl)
  }

  /**
   * `POST`: answers as `Respond` says, and attempts to fetch (the dealer URL of
   * the normalised identifier) exactly when it does not answer 400.
   */
  method Post(field: Option<string>, browse: string -> Page) returns (resp: Response, visited: Option<string>)
    ensures resp == Respond(field, browse)
    ensures visited.None? <==> Status(resp) == 400
    ensures visited.Some? ==> visited.value == BuildDealerUrl(Normalize(field))
  {
    var baseDomain := Normalize(field);
    if baseDomain == [] || !IsValidBaseDomain(baseDomain) {
      return InvalidBaseDomain, None;
    }
    var targetUrl := BuildDealerUrl(baseDomain);
    visited := Some(targetUrl);
    var page := browse(targetUrl);
    if page.FetchFailed? {
      return FetchFailure(targetUrl), visited;
    }
    var href := ScanSelectors(page.locate);
    ghost var first := FirstYield(CandidateSelectors, page.locate);
    if !IsTruthy(href) {
      assert first.None?;
      return LinkNotFound(targetUrl), visited;
    }
    assert first.Some? && href == page.locate(CandidateSelectors[first.value]).href;
    var serviceUrl := BuildVariantUrls(href.value, ServiceCampaign);
    var partsUrl := BuildVariantUrls(href.value, PartsCampaign);
    resp := Found(href.value, serviceUrl, partsUrl, targetUrl);
  }

  // ---------------------------------------------------------------------
  // What the endpoint promises
  // ---------------------------------------------------------------------

  /**
   * 400 exactly when the normalised identifier fails the check, and then the
   * answer is the same whatever the browser would have done: nothing is fetched.
   */
  lemma InvalidInputIs400(field: Option<string>, browse: string -> Page, other: string -> Page)
    ensures Status(Respond(field, browse)) == 400 <==> !IsValidBaseDomain(Normalize(field))
    ensures !IsValidBaseDomain(Normalize(field)) ==> Respond(field, browse) == Respond(field, other)
  {
  }

  /**
   * Every answer but 400 names the page it tried: the dealer URL built from the
   * normalised identifier, from which that identifier can be read back.
   */
  lemma ResponseCarriesTarget(field: Option<string>, browse: string -> Page)
    ensures var r := Respond(field, browse);
            var target := match r
                          case LinkNotFound(u) => u
                          case FetchFailure(u) => u
                          case Found(_, _, _, u) => u
                          case InvalidBaseDomain => "";
            Status(r) != 400 ==> IsValidBaseDomain(Normalize(field)) &&
                                 DealerOf(target) == Some(Normalize(field)) &&
                                 Authority(target) == Normalize(field) + DealerHostSuffix
  {
    var d := Normalize(field);
    if IsValidBaseDomain(d) {
      DealerOfBuild(d);
      DealerUrlHost(d);
    }
  }

  /**
   * A failed fetch answers 500 with the dealer page; a loaded page answers 404
   * with it exactly when no selector yields, and 200 with it when one does.
   */
  lemma FailuresCarryTarget(field: Option<string>, browse: string -> Page)
    requires IsValidBaseDomain(Normalize(field))
    ensures var target := BuildDealerUrl(Normalize(field));
            match browse(target)
            case FetchFailed => Respond(field, browse) == FetchFailure(target)
            case Loaded(locate) =>
              ((forall j :: 0 <= j < |CandidateSelectors| ==> !Yields(locate(CandidateSelectors[j]))) <==>
               Respond(field, browse) == LinkNotFound(target)) &&
              ((exists j :: 0 <= j < |CandidateSelectors| && Yields(locate(CandidateSelectors[j]))) ==>
               Respond(field, browse).Found? && Respond(field, browse).dealerPage == target)
  {
    var target := BuildDealerUrl(Normalize(field));
    match browse(target)
    case FetchFailed =>
    case Loaded(locate) =>
      match FirstYield(CandidateSelectors, locate)
      case None =>
      case Some(i) =>
        assert Yields(locate(CandidateSelectors[i]));
  }

  /**
   * A 200 answer: the source link is the attribute of the earliest selector
   * whose first element has a non-empty `href`; both variants carry exactly one
   * campaign pair with their own tag and no `utm_term`; and they differ from
   * each other only in that tag.
   */
  lemma FoundLinks(field: Option<string>, browse: string -> Page)
    requires Respond(field, browse).Found?
    ensures var r := Respond(field, browse);
            var target := BuildDealerUrl(Normalize(field));
            r.dealerPage == target &&
            browse(target).Loaded? &&
            (exists i :: 0 <= i < |CandidateSelectors| &&
               Yields(browse(target).locate(CandidateSelectors[i])) &&
               Some(r.sourceUrl) == browse(target).locate(CandidateSelectors[i]).href &&
               forall j :: 0 <= j < i ==> !Yields(browse(target).locate(CandidateSelectors[j])))
    ensures var r := Respond(field, browse);
            r.sourceUrl.Absolute? ==>
              r.serviceUrl.Absolute? && r.partsUrl.Absolute? &&
              Named(r.serviceUrl.url.query, CampaignKey) == [Param(CampaignKey, ServiceCampaign)] &&
              Named(r.partsUrl.url.query, CampaignKey) == [Param(CampaignKey, PartsCampaign)] &&
              !HasName(r.serviceUrl.url.query, TermKey) && !HasName(r.partsUrl.url.query, TermKey)
    ensures var r := Respond(field, browse);
            r.sourceUrl.Unparseable? ==> r.serviceUrl == r.sourceUrl && r.partsUrl == r.sourceUrl
    ensures var r := Respond(field, browse);
            Variant(r.serviceUrl, PartsCampaign) == r.partsUrl &&
            Variant(r.partsUrl, ServiceCampaign) == r.serviceUrl
  {
    var r := Respond(field, browse);
    var target := BuildDealerUrl(Normalize(field));
    var locate := browse(target).locate;
    var i := FirstYield(CandidateSelectors, locate).value;
    assert Some(r.sourceUrl) == locate(CandidateSelectors[i]).href;
    var h := r.sourceUrl;
    if h.Absolute? {
      RewriteCampaignOnce(h.url.query, ServiceCampaign);
      RewriteCampaignOnce(h.url.query, PartsCampaign);
    }
    VariantLastWins(h, ServiceCampaign, PartsCampaign);
    VariantLastWins(h, PartsCampaign, ServiceCampaign);
  }

  /**
   * The endpoint lower-cases before checking, so an identifier written in
   * capitals (such as "ACME") is fetched in lower case rather than refused.
   */
  lemma CapitalsAreFetched(s: string, browse: string -> Page)
    requires s != [] && forall k :: 0 <= k < |s| ==> 'A' <= s[k] <= 'Z'
    ensures Status(Respond(Some(s), browse)) != 400
  {
    CapitalsAccepted(s);
    InvalidInputIs400(Some(s), browse, browse);
  }
}
