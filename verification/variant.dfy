/**
 * `buildVariantUrls` of app/api/scrape/route.ts: parse the quote link, set its
 * `utm_campaign` parameter to a campaign tag, delete its `utm_term` parameter,
 * and hand back unparseable text untouched.
 */
module VariantLinks {
  import opened Wrappers
  import opened SearchParams

  /**
   * A URL as `new URL(href)` parses it, reduced to what the rewrite can touch:
   * the part before the query, the query's name-value list, and the fragment.
   */
  datatype Url = Url(beforeQuery: string, query: seq<Param>, fragment: string)

  /** An `href` value: an absolute URL that parses, or text that `new URL` (given no base) rejects. */
  datatype Href = Absolute(url: Url) | Unparseable(text: string)

  const CampaignKey := "utm_campaign"
  const TermKey := "utm_term"
  const ServiceCampaign := "service_LP"
  const PartsCampaign := "parts_LP"

  /** The query list after `set("utm_campaign", campaign)` and then `delete("utm_term")`. */
  function RewriteQuery(q: seq<Param>, campaign: string): seq<Param> {
    DeleteParam(SetParam(q, CampaignKey, campaign), TermKey)
  }

  /** The link `buildVariantUrls(h, campaign)` returns. */
  function Variant(h: Href, campaign: string): Href {
    match h
    case Unparseable(_) => h
    case Absolute(u) => Absolute(u.(query := RewriteQuery(u.query, campaign)))
  }

  /**
   * `buildVariantUrls`: the parsed URL's search parameters are changed in
   * place (set, then delete) and the URL is handed back; text that does not
   * parse is handed back as it is.
   */
  method BuildVariantUrls(h: Href, campaign: string) returns (r: Href)
    ensures r == Variant(h, campaign)
    ensures h.Unparseable? ==> r == h
    ensures h.Absolute? ==>
              r.Absolute? && r.url.beforeQuery == h.url.beforeQuery && r.url.fragment == h.url.fragment &&
              Named(r.url.query, CampaignKey) == [Param(CampaignKey, campaign)] &&
              !HasName(r.url.query, TermKey)
  {
    match h
    case Unparseable(_) =>
      r := h;
    case Absolute(u) =>
      var params := new UrlSearchParams(u.query);
      params.Set(CampaignKey, campaign);
      params.Delete(TermKey);
      r := Absolute(u.(query := params.list));
      RewriteCampaignOnce(u.query, campaign);
  }

  // ---------------------------------------------------------------------
  // What the rewrite does to the query list
  // ---------------------------------------------------------------------

  /**
   * The rewritten list spelled out: the pairs before the first `utm_campaign`
   * (minus `utm_term`), the new campaign pair, then the later pairs minus
   * both names; with no `utm_campaign` at all, the list minus `utm_term`
   * followed by the new pair.
   */
  lemma RewriteShape(q: seq<Param>, campaign: string)
    ensures var p := Param(CampaignKey, campaign);
            match IndexOfName(q, CampaignKey)
            case None => RewriteQuery(q, campaign) == DeleteParam(q, TermKey) + [p]
            case Some(i) => RewriteQuery(q, campaign) ==
                            DeleteParam(q[..i], TermKey) + [p] + DeleteParam(DeleteParam(q[i + 1..], CampaignKey), TermKey)
  {
    var p := Param(CampaignKey, campaign);
    assert DeleteParam([p], TermKey) == [p] by { assert [p][1..] == []; }
    match IndexOfName(q, CampaignKey)
    case None =>
      DeleteParamConcat(q, [p], TermKey);
    case Some(i) =>
      var a, b := q[..i], DeleteParam(q[i + 1..], CampaignKey);
      DeleteParamConcat(a + [p], b, TermKey);
      DeleteParamConcat(a, [p], TermKey);
  }

  /** After the rewrite there is exactly one `utm_campaign` pair, holding the tag, and no `utm_term` pair. */
  lemma RewriteCampaignOnce(q: seq<Param>, campaign: string)
    ensures Named(RewriteQuery(q, campaign), CampaignKey) == [Param(CampaignKey, campaign)]
    ensures !HasName(RewriteQuery(q, campaign), TermKey)
  {
    SetParamNamed(q, CampaignKey, campaign);
    DeleteParamKeepsOthers(SetParam(q, CampaignKey, campaign), TermKey, CampaignKey);
  }

  /**
   * Nothing else changes: with both touched names struck out, the rewritten
   * list equals the original, so every other pair keeps its value and its
   * relative order.
   */
  lemma RewriteKeepsOtherPairs(q: seq<Param>, campaign: string)
    ensures DeleteParam(DeleteParam(RewriteQuery(q, campaign), CampaignKey), TermKey) ==
            DeleteParam(DeleteParam(q, CampaignKey), TermKey)
  {
    var s := SetParam(q, CampaignKey, campaign);
    DeleteParamCommutes(s, TermKey, CampaignKey);
    SetParamKeepsOthers(q, CampaignKey, campaign);
    DeleteParamIdempotent(DeleteParam(s, CampaignKey), TermKey);
  }

  /** Each name other than the two touched ones has the same pairs after the rewrite as before. */
  lemma RewriteKeepsOthers(q: seq<Param>, campaign: string, m: string)
    requires m != CampaignKey && m != TermKey
    ensures Named(RewriteQuery(q, campaign), m) == Named(q, m)
  {
    var s := SetParam(q, CampaignKey, campaign);
    SetParamKeepsOthers(q, CampaignKey, campaign);
    DeleteParamKeepsOthers(s, TermKey, m);
    DeleteParamKeepsOthers(s, CampaignKey, m);
    DeleteParamKeepsOthers(q, CampaignKey, m);
  }

  /**
   * The campaign pair stays where the first `utm_campaign` pair was (counting
   * only the pairs that survive), or is appended when there was none.
   */
  lemma RewriteCampaignPosition(q: seq<Param>, campaign: string)
    ensures IndexOfName(RewriteQuery(q, campaign), CampaignKey) ==
            match IndexOfName(q, CampaignKey)
            case Some(i) => Some(|DeleteParam(q[..i], TermKey)|)
            case None => Some(|RewriteQuery(q, campaign)| - 1)
  {
    var p := Param(CampaignKey, campaign);
    var r := RewriteQuery(q, campaign);
    RewriteShape(q, campaign);
    match IndexOfName(q, CampaignKey)
    case None =>
      var a := DeleteParam(q, TermKey);
      HasNameAfterDelete(q, TermKey, CampaignKey);
      IndexOfNameAfter(a, p, [], CampaignKey);
      assert r == a + [p] + [];
    case Some(i) =>
      var a := DeleteParam(q[..i], TermKey);
      var b := DeleteParam(DeleteParam(q[i + 1..], CampaignKey), TermKey);
      HasNameAfterDelete(q[..i], TermKey, CampaignKey);
      IndexOfNameAfter(a, p, b, CampaignKey);
      assert r == a + [p] + b;
  }

  /** A list holding one `utm_campaign` pair and no `utm_term` pair is rewritten by swapping that pair's value. */
  lemma RewriteSingleCampaign(a: seq<Param>, p: Param, b: seq<Param>, campaign: string)
    requires p.name == CampaignKey
    requires !HasName(a, CampaignKey) && !HasName(a, TermKey)
    requires !HasName(b, CampaignKey) && !HasName(b, TermKey)
    ensures RewriteQuery(a + [p] + b, campaign) == a + [Param(CampaignKey, campaign)] + b
  {
    var r := a + [p] + b;
    IndexOfNameAfter(a, p, b, CampaignKey);
    RewriteShape(r, campaign);
    assert r[..|a|] == a && r[|a| + 1..] == b;
    DeleteParamAbsent(a, TermKey);
    DeleteParamAbsent(b, CampaignKey);
    DeleteParamAbsent(b, TermKey);
  }

  /** Rewriting an already rewritten list with a new tag is rewriting the original with that tag: the last tag wins. */
  lemma RewriteLastWins(q: seq<Param>, c1: string, c2: string)
    ensures RewriteQuery(RewriteQuery(q, c1), c2) == RewriteQuery(q, c2)
  {
    var p1 := Param(CampaignKey, c1);
    RewriteShape(q, c1);
    RewriteShape(q, c2);
    match IndexOfName(q, CampaignKey)
    case None =>
      var a := DeleteParam(q, TermKey);
      HasNameAfterDelete(q, TermKey, CampaignKey);
      assert a + [p1] + [] == a + [p1];
      assert a + [Param(CampaignKey, c2)] + [] == a + [Param(CampaignKey, c2)];
      RewriteSingleCampaign(a, p1, [], c2);
    case Some(i) =>
      var a := DeleteParam(q[..i], TermKey);
      var b := DeleteParam(DeleteParam(q[i + 1..], CampaignKey), TermKey);
      HasNameAfterDelete(q[..i], TermKey, CampaignKey);
      HasNameAfterDelete(DeleteParam(q[i + 1..], CampaignKey), TermKey, CampaignKey);
      RewriteSingleCampaign(a, p1, b, c2);
  }

  /** The service and parts links are built from the same rewrite; a later tag overrides an earlier one. */
  lemma VariantLastWins(h: Href, c1: string, c2: string)
    ensures Variant(Variant(h, c1), c2) == Variant(h, c2)
  {
    if h.Absolute? {
      RewriteLastWins(h.url.query, c1, c2);
    }
  }

  /** `buildVariantUrls` is idempotent: applying it twice with the same tag is applying it once. */
  lemma VariantIdempotent(h: Href, campaign: string)
    ensures Variant(Variant(h, campaign), campaign) == Variant(h, campaign)
  {
    VariantLastWins(h, campaign, campaign);
  }

  /**
   * Two variants of one link differ only in the `utm_campaign` value: same
   * prefix and fragment, same length, and pair for pair equal except the one
   * campaign pair.
   */
  lemma VariantsDifferOnlyInCampaign(h: Href, c1: string, c2: string)
    ensures h.Unparseable? ==> Variant(h, c1) == h && Variant(h, c2) == h
    ensures h.Absolute? ==>
              var u1, u2 := Variant(h, c1).url, Variant(h, c2).url;
              u1.beforeQuery == u2.beforeQuery == h.url.beforeQuery &&
              u1.fragment == u2.fragment == h.url.fragment &&
              |u1.query| == |u2.query| &&
              forall k :: 0 <= k < |u1.query| ==>
                u1.query[k] == u2.query[k] ||
                (u1.query[k] == Param(CampaignKey, c1) && u2.query[k] == Param(CampaignKey, c2))
  {
    if h.Absolute? {
      var q := h.url.query;
      RewriteShape(q, c1);
      RewriteShape(q, c2);
      var q1, q2 := RewriteQuery(q, c1), RewriteQuery(q, c2);
      var p1, p2 := Param(CampaignKey, c1), Param(CampaignKey, c2);
      var a, b := [], [];
      match IndexOfName(q, CampaignKey)
      case None =>
        a := DeleteParam(q, TermKey);
      case Some(i) =>
        a := DeleteParam(q[..i], TermKey);
        b := DeleteParam(DeleteParam(q[i + 1..], CampaignKey), TermKey);
      assert q1 == a + [p1] + b && q2 == a + [p2] + b;
      SwapOnePair(a, p1, p2, b);
    }
  }

  /** Two lists that differ only in the one pair between `a` and `b` agree pair for pair elsewhere. */
  lemma SwapOnePair(a: seq<Param>, p1: Param, p2: Param, b: seq<Param>)
    ensures var q1, q2 := a + [p1] + b, a + [p2] + b;
            |q1| == |q2| &&
            forall k :: 0 <= k < |q1| ==> q1[k] == q2[k] || (q1[k] == p1 && q2[k] == p2)
  {
    var q1, q2 := a + [p1] + b, a + [p2] + b;
    forall k | 0 <= k < |q1|
      ensures q1[k] == q2[k] || (q1[k] == p1 && q2[k] == p2)
    {
      if k < |a| {
        assert q1[k] == a[k] == q2[k];
      } else if k > |a| {
        assert q1[k] == b[k - |a| - 1] == q2[k];
      }
    }
  }

  /**
   * The example quote link: `utm_campaign=x&utm_term=y` becomes
   * `utm_campaign=service_LP` (or `parts_LP`) alone, the rest of the URL untouched.
   */
  lemma ExampleQuoteLink()
    ensures var h := Absolute(Url("https://insurance.toyota.com.au/quote/quote-new",
                                  [Param(CampaignKey, "x"), Param(TermKey, "y")], ""));
            Variant(h, ServiceCampaign) ==
              Absolute(Url("https://insurance.toyota.com.au/quote/quote-new", [Param(CampaignKey, ServiceCampaign)], "")) &&
            Variant(h, PartsCampaign) ==
              Absolute(Url("https://insurance.toyota.com.au/quote/quote-new", [Param(CampaignKey, PartsCampaign)], ""))
  {
    var q := [Param(CampaignKey, "x"), Param(TermKey, "y")];
    IndexOfNameAt(q, CampaignKey, 0);
    RewriteShape(q, ServiceCampaign);
    RewriteShape(q, PartsCampaign);
    assert q[..0] == [] && q[1..] == [Param(TermKey, "y")];
    assert DeleteParam([Param(TermKey, "y")], CampaignKey) == [Param(TermKey, "y")] by {
      assert [Param(TermKey, "y")][1..] == [];
    }
    assert DeleteParam([Param(TermKey, "y")], TermKey) == [] by {
      assert [Param(TermKey, "y")][1..] == [];
    }
  }
}
