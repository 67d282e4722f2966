/**
 * The dealer identifier ("base domain") of app/api/scrape/route.ts: how the
 * request field is normalised (trim, then lower-case), the character-class
 * check that gates every fetch, and the dealer-page URL built from it.
 */
module BaseDomain {
  import opened Wrappers

  // ---------------------------------------------------------------------
  // Normalisation: String.prototype.trim and String.prototype.toLowerCase
  // ---------------------------------------------------------------------

  /** The characters ECMAScript's `trim` strips: WhiteSpace (TAB, VT, FF, ZWNBSP and every Zs) and LineTerminator. */
  predicate IsTrimmable(c: char) {
    c == '\t' || c == '\n' || c == '\U{B}' || c == '\U{C}' || c == '\r' ||
    c == ' ' || c == '\U{A0}' || c == '\U{1680}' || ('\U{2000}' <= c <= '\U{200A}') ||
    c == '\U{2028}' || c == '\U{2029}' || c == '\U{202F}' || c == '\U{205F}' ||
    c == '\U{3000}' || c == '\U{FEFF}'
  }

  /** Drops leading trimmable characters. */
  function TrimStart(s: string): (r: string)
    ensures |r| <= |s|
    ensures forall k :: 0 <= k < |s| - |r| ==> IsTrimmable(s[k])
    ensures r != [] ==> !IsTrimmable(r[0])
  {
    if s != [] && IsTrimmable(s[0]) then TrimStart(s[1..]) else s
  }

  /** What `TrimStart` keeps is the tail of `s` after the dropped characters. */
  lemma {:induction false} TrimStartSuffix(s: string)
    ensures TrimStart(s) == s[|s| - |TrimStart(s)|..]
  {
    if s != [] && IsTrimmable(s[0]) {
      TrimStartSuffix(s[1..]);
      assert s[1..][|s[1..]| - |TrimStart(s[1..])|..] == s[|s| - |TrimStart(s)|..];
    }
  }

  /** Drops trailing trimmable characters. */
  function TrimEnd(s: string): (r: string)
    ensures |r| <= |s| && r == s[..|r|]
    ensures forall k :: |r| <= k < |s| ==> IsTrimmable(s[k])
    ensures r != [] ==> !IsTrimmable(r[|r| - 1])
  {
    if s != [] && IsTrimmable(s[|s| - 1]) then TrimEnd(s[..|s| - 1]) else s
  }

  /** `s.trim()`: neither end of the result is a trimmable character. */
  function Trim(s: string): (r: string)
    ensures |r| <= |s|
    ensures r != [] ==> !IsTrimmable(r[0]) && !IsTrimmable(r[|r| - 1])
  {
    TrimEnd(TrimStart(s))
  }

  /** `trim` removes only trimmable characters, and only at the ends: what is left is a slice of `s`. */
  lemma TrimIsSlice(s: string)
    ensures var i, r := |s| - |TrimStart(s)|, Trim(s);
            i + |r| <= |s| && r == s[i..i + |r|] &&
            (forall k :: 0 <= k < i ==> IsTrimmable(s[k])) &&
            (forall k :: i + |r| <= k < |s| ==> IsTrimmable(s[k]))
  {
    var t := TrimStart(s);
    var r := TrimEnd(t);
    assert Trim(s) == r;
    TrimStartSuffix(s);
    SliceOfSuffix(s, t, r);
  }

  /** A prefix `r` of a suffix `t` of `s` is a slice of `s`, and trimmable text after `r` in `t` is trimmable text in `s`. */
  lemma SliceOfSuffix(s: string, t: string, r: string)
    requires |t| <= |s| && t == s[|s| - |t|..]
    requires |r| <= |t| && r == t[..|r|]
    requires forall k :: |r| <= k < |t| ==> IsTrimmable(t[k])
    ensures var i := |s| - |t|; r == s[i..i + |r|] && forall k :: i + |r| <= k < |s| ==> IsTrimmable(s[k])
  {
    var i := |s| - |t|;
    forall k | i + |r| <= k < |s| ensures IsTrimmable(s[k]) {
      assert s[k] == t[k - i];
    }
  }

  /** Text made only of trimmable characters trims to the empty string. */
  lemma {:induction false} TrimAllTrimmable(s: string)
    requires forall k :: 0 <= k < |s| ==> IsTrimmable(s[k])
    ensures Trim(s) == []
  {
    if s != [] {
      assert forall k :: 0 <= k < |s[1..]| ==> s[1..][k] == s[k + 1];
      TrimAllTrimmable(s[1..]);
    }
  }

  /**
   * The lower-case mapping of one character, as `toLowerCase` applies it:
   * ASCII capitals, the two non-ASCII characters whose mapping contains an
   * ASCII letter (KELVIN SIGN and LATIN CAPITAL LETTER I WITH DOT ABOVE),
   * and every other character kept as it is.
   */
  function LowerChar(c: char): string {
    if 'A' <= c <= 'Z' then [(c as int + 32) as char]
    else if c == '\U{212A}' then "k"
    else if c == '\U{130}' then "i\U{307}"
    else [c]
  }

  /** `s.toLowerCase()`, character by character. */
  function ToLower(s: string): (r: string)
    ensures |r| >= |s|
  {
    if s == [] then [] else LowerChar(s[0]) + ToLower(s[1..])
  }

  /** `(body.baseDomain || "").trim().toLowerCase()`: a missing field reads as the empty string. */
  function Normalize(field: Option<string>): string {
    ToLower(Trim(field.GetOr("")))
  }

  // ---------------------------------------------------------------------
  // Validation: /^[a-z0-9-]+$/
  // ---------------------------------------------------------------------

  /** The character class `[a-z0-9-]`. */
  predicate IsDomainChar(c: char) {
    'a' <= c <= 'z' || '0' <= c <= '9' || c == '-'
  }

  predicate AllDomainChars(s: string) {
    forall k :: 0 <= k < |s| ==> IsDomainChar(s[k])
  }

  /** `isValidBaseDomain`: the whole string is one or more characters of `[a-z0-9-]`. */
  predicate IsValidBaseDomain(s: string) {
    |s| > 0 && AllDomainChars(s)
  }

  /** A raw character that lower-cases into `[a-z0-9-]`. */
  predicate LowersIntoClass(c: char) {
    IsDomainChar(c) || 'A' <= c <= 'Z' || c == '\U{212A}'
  }

  lemma AllDomainCharsConcat(a: string, b: string)
    ensures AllDomainChars(a + b) <==> AllDomainChars(a) && AllDomainChars(b)
  {
    if AllDomainChars(a + b) {
      forall k | 0 <= k < |a| ensures IsDomainChar(a[k]) {
        assert a[k] == (a + b)[k];
      }
      forall k | 0 <= k < |b| ensures IsDomainChar(b[k]) {
        assert b[k] == (a + b)[|a| + k];
      }
    }
    if AllDomainChars(a) && AllDomainChars(b) {
      forall k | 0 <= k < |a + b| ensures IsDomainChar((a + b)[k]) {
        if k < |a| { assert (a + b)[k] == a[k]; } else { assert (a + b)[k] == b[k - |a|]; }
      }
    }
  }

  lemma LowerCharInClass(c: char)
    ensures |LowerChar(c)| > 0
    ensures AllDomainChars(LowerChar(c)) <==> LowersIntoClass(c)
  {
    if c == '\U{130}' {
      assert !IsDomainChar(LowerChar(c)[1]);
    } else if !LowersIntoClass(c) {
      assert !IsDomainChar(LowerChar(c)[0]);
    }
  }

  /** Lower-casing lands in `[a-z0-9-]` exactly when every raw character lowers into it. */
  lemma {:induction false} ToLowerInClass(t: string)
    ensures |ToLower(t)| > 0 <==> |t| > 0
    ensures AllDomainChars(ToLower(t)) <==> forall k :: 0 <= k < |t| ==> LowersIntoClass(t[k])
  {
    if t != [] {
      ToLowerInClass(t[1..]);
      LowerCharInClass(t[0]);
      AllDomainCharsConcat(LowerChar(t[0]), ToLower(t[1..]));
      if forall k :: 0 <= k < |t[1..]| ==> LowersIntoClass(t[1..][k]) {
        if LowersIntoClass(t[0]) {
          forall k | 0 <= k < |t| ensures LowersIntoClass(t[k]) {
            if k > 0 { assert t[k] == t[1..][k - 1]; }
          }
        }
      } else {
        var k :| 0 <= k < |t[1..]| && !LowersIntoClass(t[1..][k]);
        assert t[1..][k] == t[k + 1];
      }
    }
  }

  /**
   * The gate of POST: the normalised field passes `isValidBaseDomain` exactly
   * when the trimmed raw text is non-empty and each of its characters is a
   * lower-case ASCII letter, digit, hyphen, ASCII capital or KELVIN SIGN.
   */
  lemma NormalizedValidIff(field: Option<string>)
    ensures var t := Trim(field.GetOr(""));
            IsValidBaseDomain(Normalize(field)) <==>
            |t| > 0 && forall k :: 0 <= k < |t| ==> LowersIntoClass(t[k])
  {
    ToLowerInClass(Trim(field.GetOr("")));
  }

  /** An identifier that already passes is its own normal form. */
  lemma {:induction false} NormalizeFixesValid(d: string)
    requires IsValidBaseDomain(d)
    ensures Normalize(Some(d)) == d
  {
    assert !IsTrimmable(d[0]) && !IsTrimmable(d[|d| - 1]);
    assert TrimStart(d) == d;
    assert TrimEnd(d) == d;
    ToLowerFixesDomainChars(d);
  }

  lemma {:induction false} ToLowerFixesDomainChars(s: string)
    requires AllDomainChars(s)
    ensures ToLower(s) == s
  {
    if s != [] {
      assert AllDomainChars(s[1..]) by {
        forall k | 0 <= k < |s[1..]| ensures IsDomainChar(s[1..][k]) { assert s[1..][k] == s[k + 1]; }
      }
      ToLowerFixesDomainChars(s[1..]);
      assert IsDomainChar(s[0]);
      assert s == [s[0]] + s[1..];
    }
  }

  /** Missing, empty or whitespace-only input never passes the gate. */
  lemma BlankRejected(field: Option<string>)
    requires forall k :: 0 <= k < |field.GetOr("")| ==> IsTrimmable(field.GetOr("")[k])
    ensures !IsValidBaseDomain(Normalize(field))
  {
    TrimAllTrimmable(field.GetOr(""));
    ToLowerInClass(Trim(field.GetOr("")));
  }

  /** Characters outside the class and not lowered into it (such as '.', '/', ' ' inside the text) reject. */
  lemma StrayCharRejected(field: Option<string>, k: nat)
    requires var t := Trim(field.GetOr("")); k < |t| && !LowersIntoClass(t[k])
    ensures !IsValidBaseDomain(Normalize(field))
  {
    NormalizedValidIff(field);
  }

  /** Capitals are lowered before the check, so an identifier written in capitals (such as "ACME") is accepted. */
  lemma CapitalsAccepted(s: string)
    requires s != [] && forall k :: 0 <= k < |s| ==> 'A' <= s[k] <= 'Z'
    ensures IsValidBaseDomain(Normalize(Some(s)))
  {
    TrimKeepsBareText(s);
    NormalizedValidIff(Some(s));
  }

  /** Text with no trimmable character at either end is left alone by `trim`. */
  lemma TrimKeepsBareText(s: string)
    requires s != [] ==> !IsTrimmable(s[0]) && !IsTrimmable(s[|s| - 1])
    ensures Trim(s) == s
  {
    assert TrimStart(s) == s;
    assert TrimEnd(s) == s;
  }

  // ---------------------------------------------------------------------
  // The dealer-page URL
  // ---------------------------------------------------------------------

  const DealerUrlPrefix := "https://"
  const DealerHostSuffix := ".dealer.toyota.com.au"
  const DealerPath := "/finance/car-insurance?src=menunavigation"
  const DealerUrlSuffix := DealerHostSuffix + DealerPath

  /** `buildDealerUrl`: the identifier spliced into the fixed dealer-page template. */
  function BuildDealerUrl(d: string): (url: string)
    ensures |url| == |DealerUrlPrefix| + |d| + |DealerUrlSuffix|
  {
    DealerUrlPrefix + d + DealerUrlSuffix
  }

  /** The identifier a dealer-page URL was built from, or None for any other text. */
  function DealerOf(url: string): (d: Option<string>)
  {
    if |url| >= |DealerUrlPrefix| + |DealerUrlSuffix| &&
       url[..|DealerUrlPrefix|] == DealerUrlPrefix &&
       url[|url| - |DealerUrlSuffix|..] == DealerUrlSuffix
    then Some(url[|DealerUrlPrefix|..|url| - |DealerUrlSuffix|])
    else None
  }

  /** Building then reading back gives the identifier. */
  lemma DealerOfBuild(d: string)
    ensures DealerOf(BuildDealerUrl(d)) == Some(d)
  {
    var url := BuildDealerUrl(d);
    assert url[..|DealerUrlPrefix|] == DealerUrlPrefix;
    assert url[|url| - |DealerUrlSuffix|..] == DealerUrlSuffix;
    assert url[|DealerUrlPrefix|..|url| - |DealerUrlSuffix|] == d;
  }

  /** Whatever `DealerOf` accepts is exactly the URL built from what it returns. */
  lemma BuildDealerOf(url: string)
    requires DealerOf(url).Some?
    ensures BuildDealerUrl(DealerOf(url).value) == url
  {
    var p, s := |DealerUrlPrefix|, |DealerUrlSuffix|;
    assert url == url[..p] + url[p..|url| - s] + url[|url| - s..];
  }

  /** The template is injective: distinct identifiers give distinct dealer pages. */
  lemma BuildDealerUrlInjective(d1: string, d2: string)
    requires BuildDealerUrl(d1) == BuildDealerUrl(d2)
    ensures d1 == d2
  {
    DealerOfBuild(d1);
    DealerOfBuild(d2);
  }

  /** Characters that end the authority component of a URL. */
  predicate EndsAuthority(c: char) {
    c == '/' || c == '?' || c == '#'
  }

  /** The text up to the first authority delimiter. */
  function TakeAuthority(s: string): (r: string)
    ensures |r| <= |s| && r == s[..|r|]
  {
    if s == [] || EndsAuthority(s[0]) then [] else [s[0]] + TakeAuthority(s[1..])
  }

  /** The authority (host) of an `https://` URL. */
  function Authority(url: string): string {
    if |url| >= |DealerUrlPrefix| && url[..|DealerUrlPrefix|] == DealerUrlPrefix
    then TakeAuthority(url[|DealerUrlPrefix|..])
    else []
  }

  lemma {:induction false} TakeAuthorityConcat(a: string, b: string)
    requires forall k :: 0 <= k < |a| ==> !EndsAuthority(a[k])
    ensures TakeAuthority(a + b) == a + TakeAuthority(b)
  {
    if a == [] {
      assert a + b == b;
    } else {
      var tail := a[1..];
      assert forall k :: 0 <= k < |tail| ==> tail[k] == a[k + 1];
      TakeAuthorityConcat(tail, b);
      assert (a + b)[1..] == tail + b;
      assert a == [a[0]] + tail;
    }
  }

  /**
   * A valid identifier cannot leave its host: the dealer URL's authority is
   * the identifier followed by the fixed dealer domain, so no escaping is needed.
   */
  lemma DealerUrlHost(d: string)
    requires IsValidBaseDomain(d)
    ensures Authority(BuildDealerUrl(d)) == d + DealerHostSuffix
  {
    assert BuildDealerUrl(d) == DealerUrlPrefix + (d + DealerUrlSuffix);
    AuthorityAfterPrefix(d + DealerUrlSuffix);
    TakeAuthorityConcat(d, DealerUrlSuffix);
    SuffixAuthority();
  }

  lemma AuthorityAfterPrefix(x: string)
    ensures Authority(DealerUrlPrefix + x) == TakeAuthority(x)
  {
    var url := DealerUrlPrefix + x;
    assert url[..|DealerUrlPrefix|] == DealerUrlPrefix;
    assert url[|DealerUrlPrefix|..] == x;
  }

  lemma HostSuffixHasNoDelimiter()
    ensures forall k :: 0 <= k < |DealerHostSuffix| ==> !EndsAuthority(DealerHostSuffix[k])
  { }

  /** The fixed part of the template contributes exactly the dealer domain to the authority. */
  lemma SuffixAuthority()
    ensures TakeAuthority(DealerUrlSuffix) == DealerHostSuffix
  {
    HostSuffixHasNoDelimiter();
    assert DealerPath[0] == '/';
    TakeAuthorityConcat(DealerHostSuffix, DealerPath);
  }
}
