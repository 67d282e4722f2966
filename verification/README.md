# Insurance quote links: a Dafny model of the scrape endpoint

The endpoint `POST /api/scrape` (app/api/scrape/route.ts) takes a dealer
identifier (the "base domain"). It first normalises it (trim, lower-case)
and refuses anything that is not one or more characters of `[a-z0-9-]`.
For an accepted identifier, it loads
`https://<identifier>.dealer.toyota.com.au/finance/car-insurance?src=menunavigation`
in a headless browser. On that page it looks for the "Get a Quote" link
with four selectors, in a fixed order. From the link it builds two
campaign variants: the `utm_campaign` query parameter is set to
`service_LP` or `parts_LP`, and `utm_term` is removed. The answer is
400, 500, 404 or 200.

The model has five modules:

- `Wrappers` holds the `Option` type.
- `BaseDomain` holds the identifier.
  - ECMAScript `trim` is modelled with its whitespace and line-terminator set.
  - `toLowerCase` is modelled character by character.
  - `isValidBaseDomain` is the regular expression's character class.
  - The dealer URL template comes with its inverse `DealerOf` and a proof
    that a valid identifier stays inside the host.
- `SearchParams` holds a URL query as a list of name-value pairs.
  - `set` and `delete` follow section 6.2 of the WHATWG URL Standard
    ("Interface URLSearchParams") and are written as specification functions.
  - The class `UrlSearchParams` has a field `list` that its `Set` and `Delete`
    loops rewrite in place. Each loop is proved equal to its function.
- `VariantLinks` holds `buildVariantUrls`.
  - An `Href` is either a parsed absolute URL (the part before the query, the
    pair list, the fragment) or text that `new URL` rejects.
  - The method builds a `UrlSearchParams` and calls `Set` then `Delete`, as
    the source does. It is proved equal to the function `Variant`.
  - The lemmas say what the rewrite keeps and what it changes.
- `Scrape` holds the selector loop and the decision logic of `POST`.
  - The browser is an oracle `browse: string -> Page`. A `Page` is either a
    failed fetch (browser start-up or navigation) or a locator giving, for each selector, what
    `.first()` finds: no element, or an element with an optional `href`.
  - `ScanSelectors` is the `for` loop with `break`, proved against the
    first-success search `FirstYield`.
  - `Respond` is the response function. `Post` is proved to answer with it,
    and it reports the URL it attempts to fetch (none on a 400).

Some behaviour of the code that a reader of the endpoint's description might
not expect:

- Lower-casing happens before the check, so `"ACME"` is accepted as `"acme"`
  and fetched (`Scrape.CapitalsAreFetched`).
- A relative `href` is not resolved against the dealer page.
  `new URL(href)` is called without a base, so a relative link fails to parse.
  The `catch` then returns it unchanged, and both "variants" equal the raw
  link (the `Unparseable` case of `VariantLinks.Variant`).
- If a selector's first element has no `href`, or an empty one, the scan does
  not stop there. Only a truthy `href` ends the loop (`Scrape.Yields`).

## Model

| member | source | states |
|---|---|---|
| `BaseDomain.IsTrimmable` | app/api/scrape/route.ts:32 | the characters `trim()` strips: ECMAScript WhiteSpace (TAB, VT, FF, SPACE, NO-BREAK SPACE, ZWNBSP and every other space separator) and LineTerminator (LF, CR, LINE SEPARATOR, PARAGRAPH SEPARATOR) |
| `BaseDomain.TrimStart` | app/api/scrape/route.ts:32 | the result is no longer than the input, everything it dropped from the front is trimmable, and the result does not start with a trimmable character |
| `BaseDomain.TrimStartSuffix` | app/api/scrape/route.ts:32 | what `TrimStart` keeps is exactly the tail of the input after the dropped characters |
| `BaseDomain.TrimEnd` | app/api/scrape/route.ts:32 | the result is a prefix of the input; everything dropped is trimmable and the result does not end with a trimmable character |
| `BaseDomain.Trim` | app/api/scrape/route.ts:32 | `trim()` leaves no trimmable character at either end |
| `BaseDomain.TrimIsSlice` | app/api/scrape/route.ts:32 | `trim()` gives a contiguous slice of the input, and only trimmable characters lie outside it |
| `BaseDomain.TrimAllTrimmable` | app/api/scrape/route.ts:32 | whitespace-only text trims to the empty string |
| `BaseDomain.LowerChar` | app/api/scrape/route.ts:32 | `toLowerCase` of one character: `A`-`Z` to `a`-`z`, KELVIN SIGN to `k`, U+0130 to `i` plus U+0307, every other character kept |
| `BaseDomain.ToLower` | app/api/scrape/route.ts:32 | `toLowerCase()`: the concatenation of `LowerChar` over the text, never shorter than the input |
| `BaseDomain.Normalize` | app/api/scrape/route.ts:32 | the field, or `""` when it is missing (or falsy), trimmed with `Trim` and then lower-cased with `ToLower` |
| `BaseDomain.IsValidBaseDomain` | app/api/scrape/route.ts:11-13 | `/^[a-z0-9-]+$/`: non-empty and every character in `[a-z0-9-]` |
| `BaseDomain.ToLowerInClass` | app/api/scrape/route.ts:32 | the lower-cased text is non-empty exactly when the input is. All its characters are in `[a-z0-9-]` exactly when each input character lowers into that class |
| `BaseDomain.ToLowerFixesDomainChars` | app/api/scrape/route.ts:32 | lower-casing leaves text in `[a-z0-9-]` unchanged |
| `BaseDomain.NormalizedValidIff` | app/api/scrape/route.ts:11-13 | both directions: the normalised field passes `isValidBaseDomain` exactly when the trimmed raw text is non-empty and each of its characters lowers into `[a-z0-9-]` |
| `BaseDomain.NormalizeFixesValid` | app/api/scrape/route.ts:32 | an identifier that already passes is its own normal form |
| `BaseDomain.BlankRejected` | app/api/scrape/route.ts:32-34 | a missing field, empty text or whitespace-only text fails the check |
| `BaseDomain.StrayCharRejected` | app/api/scrape/route.ts:11-13 | any character inside the trimmed text that does not lower into `[a-z0-9-]` (`.`, `/`, an inner space, ...) fails the check |
| `BaseDomain.TrimKeepsBareText` | app/api/scrape/route.ts:32 | text that neither starts nor ends with a trimmable character is left unchanged by `trim()` |
| `BaseDomain.CapitalsAccepted` | app/api/scrape/route.ts:32-34 | a non-empty identifier written only in ASCII capitals (such as `"ACME"`) passes the check after normalisation |
| `BaseDomain.BuildDealerUrl` | app/api/scrape/route.ts:15-17 | `https://` + identifier + `.dealer.toyota.com.au/finance/car-insurance?src=menunavigation`; its length is the identifier's plus the fixed parts' |
| `BaseDomain.DealerOfBuild` | app/api/scrape/route.ts:15-17 | reading the identifier back from the built dealer URL gives the identifier |
| `BaseDomain.BuildDealerOf` | app/api/scrape/route.ts:15-17 | every text that `DealerOf` accepts is the dealer URL of the identifier it reads |
| `BaseDomain.BuildDealerUrlInjective` | app/api/scrape/route.ts:15-17 | distinct identifiers give distinct dealer URLs |
| `BaseDomain.DealerUrlHost` | app/api/scrape/route.ts:15-17 | for a valid identifier, the URL's authority is exactly the identifier followed by `.dealer.toyota.com.au` |
| `BaseDomain.SuffixAuthority` | app/api/scrape/route.ts:16 | the fixed part of the template adds exactly `.dealer.toyota.com.au` to the authority |
| `SearchParams.Named` | app/api/scrape/route.ts:22-23 | at most as long as the list, every pair it returns carries the name, and it is empty exactly when the list has no pair of that name |
| `SearchParams.NamedMembers` | app/api/scrape/route.ts:22-23 | a pair is in `Named(ps, n)` exactly when it is in `ps` and carries the name `n` |
| `SearchParams.DeleteParam` | app/api/scrape/route.ts:23 | after `delete(n)` no pair named `n` remains |
| `SearchParams.IndexOfName` | app/api/scrape/route.ts:22 | the first index holding name `n`: that index holds `n` and no earlier one does; None exactly when `n` is absent |
| `SearchParams.IndexOfNameAt` | app/api/scrape/route.ts:22 | an index holding `n` with no earlier `n` is the first index |
| `SearchParams.SetParam` | app/api/scrape/route.ts:22 | `set(n, v)`: when a pair named `n` exists, the first one takes value `v` in place and the later ones are removed; otherwise `(n, v)` is appended |
| `SearchParams.SetParamNamed` | app/api/scrape/route.ts:22 | after `set(n, v)` there is exactly one pair named `n`, and its value is `v` |
| `SearchParams.SetParamKeepsOthers` | app/api/scrape/route.ts:22 | `set(n, v)` keeps every pair of another name, with its value and relative order |
| `SearchParams.SetParamPosition` | app/api/scrape/route.ts:22 | the set pair sits where the first pair named `n` was, or at the end when `n` was absent |
| `SearchParams.DeleteParamConcat` | app/api/scrape/route.ts:23 | `delete` works pair by pair: it distributes over concatenation |
| `SearchParams.DeleteParamAbsent` | app/api/scrape/route.ts:23 | deleting an absent name changes nothing |
| `SearchParams.DeleteParamIdempotent` | app/api/scrape/route.ts:23 | deleting twice is deleting once |
| `SearchParams.DeleteParamKeepsOthers` | app/api/scrape/route.ts:23 | `delete(n)` leaves the pairs of every other name exactly as they were |
| `SearchParams.HasNameAfterDelete` | app/api/scrape/route.ts:23 | a name is present after `delete(n)` exactly when it differs from `n` and was present before |
| `SearchParams.DeleteParamCommutes` | app/api/scrape/route.ts:22-23 | two deletions commute |
| `SearchParams.UrlSearchParams.constructor` | app/api/scrape/route.ts:21 | the search parameters of a parsed URL start as its query list |
| `SearchParams.UrlSearchParams.Set` | app/api/scrape/route.ts:22 | the in-place `set` loop leaves the list equal to `SetParam` of the old list |
| `SearchParams.UrlSearchParams.Delete` | app/api/scrape/route.ts:23 | the in-place `delete` loop leaves the list equal to `DeleteParam` of the old list |
| `VariantLinks.RewriteQuery` | app/api/scrape/route.ts:22-23 | the query after `set("utm_campaign", c)` and then `delete("utm_term")` |
| `VariantLinks.Variant` | app/api/scrape/route.ts:19-28 | `buildVariantUrls`: a parsed URL with its query rewritten and its prefix and fragment kept; unparseable text returned as it is |
| `VariantLinks.BuildVariantUrls` | app/api/scrape/route.ts:19-28 | the result is `Variant(h, campaign)`. Unparseable input is returned unchanged. For a parsed URL, the prefix and fragment are kept, there is exactly one `utm_campaign` pair holding the tag, and there is no `utm_term` pair |
| `VariantLinks.RewriteShape` | app/api/scrape/route.ts:22-23 | the rewritten query spelled out, with and without an existing `utm_campaign` pair |
| `VariantLinks.RewriteCampaignOnce` | app/api/scrape/route.ts:22-23 | exactly one `utm_campaign` pair, with the new tag, and no `utm_term` pair |
| `VariantLinks.RewriteKeepsOtherPairs` | app/api/scrape/route.ts:22-23 | with `utm_campaign` and `utm_term` struck out, the rewritten list equals the original: all other pairs keep their values and relative order |
| `VariantLinks.RewriteKeepsOthers` | app/api/scrape/route.ts:22-23 | each name other than `utm_campaign` and `utm_term` has the same pairs, in the same order, as before |
| `VariantLinks.RewriteCampaignPosition` | app/api/scrape/route.ts:22-23 | the campaign pair keeps the place of the first `utm_campaign` pair among the surviving pairs, or is last when there was none |
| `VariantLinks.RewriteSingleCampaign` | app/api/scrape/route.ts:22-23 | on a query with one campaign pair and no `utm_term`, the rewrite only swaps the campaign value |
| `VariantLinks.RewriteLastWins` | app/api/scrape/route.ts:22-23 | rewriting with `c1` and then with `c2` is rewriting with `c2` |
| `VariantLinks.VariantLastWins` | app/api/scrape/route.ts:19-28 | `buildVariantUrls(buildVariantUrls(h, c1), c2) == buildVariantUrls(h, c2)` |
| `VariantLinks.VariantIdempotent` | app/api/scrape/route.ts:19-28 | `buildVariantUrls` applied twice with the same tag equals applying it once |
| `VariantLinks.VariantsDifferOnlyInCampaign` | app/api/scrape/route.ts:85-86 | two variants of one link have the same prefix, fragment and length, and are equal pair for pair except the campaign pair. Unparseable links come back unchanged |
| `VariantLinks.ExampleQuoteLink` | app/api/scrape/route.ts:19-28 | `...quote-new?utm_campaign=x&utm_term=y` becomes `...quote-new?utm_campaign=service_LP` (resp. `parts_LP`) |
| `Scrape.IsTruthy` | app/api/scrape/route.ts:71 | JavaScript truthiness of `href`: present (not null) and not the empty string |
| `Scrape.Yields` | app/api/scrape/route.ts:67-71 | a selector ends the scan when its first element exists (`count > 0`) and its `href` is truthy |
| `Scrape.FirstYield` | app/api/scrape/route.ts:65-73 | the earliest selector whose first element has a truthy `href`; no earlier selector has one; None exactly when no selector has one |
| `Scrape.ScanSelectors` | app/api/scrape/route.ts:58-73 | the loop over the constant `CandidateSelectors` (the four selectors of lines 58-63, in their order) ends with the earliest yielding selector's `href`, or with a falsy `href` when none yields |
| `Scrape.Respond` | app/api/scrape/route.ts:30-99 | 400 on a failed gate; otherwise, for the target `BuildDealerUrl(Normalize(field))`, 500 on `FetchFailed`, 404 when `FirstYield` over `CandidateSelectors` is None, and else 200 carrying the yielding `href`, its two `Variant`s (`service_LP`, `parts_LP`) and the target |
| `Scrape.Post` | app/api/scrape/route.ts:30-99 | answers as `Respond`. It attempts to fetch a page exactly when the answer is not 400, and that page is the dealer URL of the normalised identifier |
| `Scrape.InvalidInputIs400` | app/api/scrape/route.ts:34-42 | 400 exactly when the normalised identifier fails the check; the answer then does not depend on the browser |
| `Scrape.ResponseCarriesTarget` | app/api/scrape/route.ts:44-99 | every answer but 400 carries the dealer URL. The normalised identifier can be read back from it, and its host is the identifier's dealer host |
| `Scrape.FailuresCarryTarget` | app/api/scrape/route.ts:75-99 | a failed fetch (browser start-up, navigation or a throwing locator) answers 500 with `dealerPage` set to the target. A loaded page answers 404 with the target exactly when no selector yields, and 200 with `dealerPage` set to the target when some selector yields |
| `Scrape.FoundLinks` | app/api/scrape/route.ts:65-93 | on 200, `sourceUrl` is the `href` of the earliest yielding selector and `dealerPage` is the target. Each variant has one campaign pair with its own tag and no `utm_term`. The two variants turn into each other by re-tagging |
| `Scrape.CapitalsAreFetched` | app/api/scrape/route.ts:32-44 | a non-empty identifier written only in ASCII capitals (such as `"ACME"`) is not refused with 400 |

## Left out

- The browser is an oracle: `chromium.launch`, the user agent, `page.goto` (network idle, 30-second timeout), `locator.count`, `getAttribute` and the `finally` that closes the browser. Every exception inside the `try` is the single `FetchFailed` case: a failure before the scan, and also an exception thrown by `count` or `getAttribute` partway through the scan, which answers the same 500 with `dealerPage` set to the target (route.ts lines 94-99). A `Loaded` page's locator always answers, so the model does not tell apart which selector's call threw.
- CSS and `:has-text` selector matching: the four selectors are opaque labels in their fixed order.
- Parsing an `href` into a URL and serialising it back (`url.toString()`, percent- and form-encoding) are not modelled. An `Href` is already the parsed form, so the model's responses carry `Href` values, not strings. "Unchanged" is stated at the level of the pair list, the prefix and the fragment. `VariantLinks.VariantLastWins` and `VariantLinks.VariantIdempotent` apply `Variant` to a variant directly, whereas the source re-parses the string that `url.toString()` produced. They assume that re-parsing a serialised URL gives back the same prefix, pair list and fragment, which the WHATWG URL Standard's serialiser and parser guarantee.
- The request body: `request.json()`, a body that is `null`, and a truthy `baseDomain` that is not a string (a number, `true`, an array or an object), which makes `.trim()` throw outside the `try`. The field is modelled as an optional string. A falsy field (`null`, `0`, `false`, `""`) reads as `""` through `body.baseDomain || ""`, which is the model's `None` (`BaseDomain.Normalize`), refused with 400 by `BaseDomain.BlankRejected`.
- The error message texts, including the exception text in the 500 answer, and `NextResponse.json` itself.
- BaseDomain.LowerChar: maps ASCII capitals, KELVIN SIGN (to `k`) and U+0130 (to `i` plus a combining dot). Every other character is kept as it is, not given its full Unicode lower-case form. Every other character whose lower-case form differs from it lower-cases to non-ASCII characters only, so the accept/refuse verdict and every accepted identifier are the same as the source's.
- Strings are sequences of Unicode scalar values, not UTF-16 code units.
- app/page.tsx (form, toasts, clipboard) and scripts/post-scrape.mjs (a one-off request) are not part of this model.
