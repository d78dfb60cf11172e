/**
 * The e-mail scraper: the denylist validator, the website derivation, the post-fetch
 * part of the page scraper and the per-keyword fold over search hits.
 *
 * HTTP, HTML-to-text conversion and the regular-expression engine are not modelled:
 * a fetched page arrives as the regex candidates found in its visible text plus the
 * first LinkedIn and Facebook matches found in its raw markup.
 */
module ScraperEmail {
  import opened Wrappers

  // ---------------------------------------------------------------------------
  // Strings
  // ---------------------------------------------------------------------------

  /** ASCII lower-casing of one character. */
  function LowerChar(c: char): char
  {
    if 'A' <= c <= 'Z' then (c as int + 32) as char else c
  }

  /** `str.lower()`, restricted to the ASCII letters. */
  function Lower(s: string): (lowered: string)
    ensures |lowered| == |s|
    ensures forall i :: 0 <= i < |s| ==> lowered[i] == LowerChar(s[i])
    ensures forall i :: 0 <= i < |s| ==> !('A' <= lowered[i] <= 'Z')
  {
    if s == [] then [] else [LowerChar(s[0])] + Lower(s[1..])
  }

  /** Lower-casing is idempotent. */
  lemma {:induction false} LowerIdempotent(s: string)
    ensures Lower(Lower(s)) == Lower(s)
  {
    if s != [] {
      LowerIdempotent(s[1..]);
      assert Lower(s)[0] == LowerChar(s[0]);
      assert Lower(s)[1..] == Lower(s[1..]);
    }
  }

  /** Reference meaning of Python's `p in s` on strings: `p` occurs at some position. */
  ghost predicate OccursIn(p: string, s: string)
  {
    exists i :: 0 <= i <= |s| && p <= s[i..]
  }

  /** The substring test, scanning positions left to right. */
  function Contains(s: string, p: string): (found: bool)
    ensures found <==> OccursIn(p, s)
    decreases |s|
  {
    if |s| < |p| then
      assert forall i :: 0 <= i <= |s| ==> !(p <= s[i..]);
      false
    else if p <= s then
      assert p <= s[0..];
      true
    else if s == [] then
      false
    else
      var rest := Contains(s[1..], p);
      assert forall i :: 1 <= i <= |s| ==> s[i..] == s[1..][i - 1..];
      assert forall i :: 0 <= i <= |s| - 1 ==> s[1..][i..] == s[i + 1..];
      rest
  }

  // ---------------------------------------------------------------------------
  // Validator (scraper_email.py:14-24)
  // ---------------------------------------------------------------------------

  /** The fixed denylist of substrings (BAD_CONTEXT). */
  const BadContext: seq<string> :=
    ["noreply", "no-reply", "donotreply", "example@", "test@", "sample@",
     ".png", ".jpg", ".jpeg", ".svg"]

  /** `any(bad in s for bad in bad_list)`. */
  function AnyBad(s: string, badList: seq<string>): (hit: bool)
    ensures hit <==> exists b :: b in badList && OccursIn(b, s)
  {
    if badList == [] then false
    else Contains(s, badList[0]) || AnyBad(s, badList[1..])
  }

  /**
   * `is_valid_email`: false exactly when the lower-cased candidate contains some
   * denylist entry. There is no length check and no homoglyph check.
   */
  function IsValidEmail(email: string): (valid: bool)
    ensures valid <==> forall b :: b in BadContext ==> !OccursIn(b, Lower(email))
  {
    !AnyBad(Lower(email), BadContext)
  }

  /** Validation ignores case: a candidate and its lower-cased form get the same verdict. */
  lemma ValidationIgnoresCase(email: string)
    ensures IsValidEmail(email) == IsValidEmail(Lower(email))
  {
    LowerIdempotent(email);
  }

  /** Two candidates equal up to ASCII case get the same verdict. */
  lemma ValidationAgreesUpToCase(e1: string, e2: string)
    requires Lower(e1) == Lower(e2)
    ensures IsValidEmail(e1) == IsValidEmail(e2)
  {
  }

  // ---------------------------------------------------------------------------
  // Website derivation (scraper_email.py:27-31)
  // ---------------------------------------------------------------------------

  /** Joins parts with the separator between consecutive parts (`sep.join(parts)`). */
  function Join(parts: seq<string>, sep: char): string
    requires |parts| >= 1
  {
    if |parts| == 1 then parts[0] else parts[0] + [sep] + Join(parts[1..], sep)
  }

  /** `s.split(sep)`: the maximal separator-free pieces, always at least one. */
  function Split(s: string, sep: char): (parts: seq<string>)
    ensures |parts| >= 1
    ensures forall p :: p in parts ==> sep !in p
    ensures Join(parts, sep) == s
    decreases |s|
  {
    if s == [] then [""]
    else
      var rest := Split(s[1..], sep);
      if s[0] == sep then
        [""] + rest
      else
        assert s == [s[0]] + s[1..];
        [[s[0]] + rest[0]] + rest[1..]
  }

  lemma {:induction false} SplitWithoutSeparator(s: string, sep: char)
    requires sep !in s
    ensures Split(s, sep) == [s]
    decreases |s|
  {
    if s != [] {
      SplitWithoutSeparator(s[1..], sep);
      assert [s[0]] + s[1..] == s;
    }
  }

  lemma {:induction false} SplitAtFirstSeparator(head: string, sep: char, tail: string)
    requires sep !in head
    ensures Split(head + [sep] + tail, sep) == [head] + Split(tail, sep)
    decreases |head|
  {
    if head == [] {
      assert head + [sep] + tail == [sep] + tail;
      assert ([sep] + tail)[1..] == tail;
    } else {
      SplitAtFirstSeparator(head[1..], sep, tail);
      assert (head + [sep] + tail)[1..] == head[1..] + [sep] + tail;
      assert [head[0]] + head[1..] == head;
    }
  }

  /** The URL scheme that prefixes every derived website. */
  const Https: string := "https://"

  /**
   * `get_website_from_email`: "https://" followed by the second `@`-separated piece;
   * the empty string when there is no `@` (the `IndexError` branch).
   */
  function GetWebsiteFromEmail(email: string): (website: string)
    ensures website == "" <==> '@' !in email
    ensures website != "" ==> Https <= website && '@' !in website[|Https|..]
  {
    var parts := Split(email, '@');
    if |parts| >= 2 then
      assert parts[1] in parts;
      Https + parts[1]
    else
      assert email == Join(parts, '@') == parts[0];
      assert parts[0] in parts;
      ""
  }

  /**
   * For any address with at least one `@`, the website is "https://" followed by
   * the text between the first `@` and the next `@` (or the end).
   */
  lemma WebsiteIsFirstDomain(local: string, domain: string, rest: string)
    requires '@' !in local && '@' !in domain
    requires rest == [] || rest[0] == '@'
    ensures GetWebsiteFromEmail(local + "@" + domain + rest) == Https + domain
  {
    var email := local + "@" + domain + rest;
    assert email == local + ['@'] + (domain + rest);
    SplitAtFirstSeparator(local, '@', domain + rest);
    if rest == [] {
      assert domain + rest == domain;
      SplitWithoutSeparator(domain, '@');
    } else {
      assert domain + rest == domain + ['@'] + rest[1..];
      SplitAtFirstSeparator(domain, '@', rest[1..]);
    }
  }

  // ---------------------------------------------------------------------------
  // Candidate shape (EMAIL_REGEX, scraper_email.py:10)
  // ---------------------------------------------------------------------------

  predicate IsLetter(c: char) { 'a' <= c <= 'z' || 'A' <= c <= 'Z' }
  predicate IsDigit(c: char) { '0' <= c <= '9' }
  predicate IsLocalChar(c: char) { IsLetter(c) || IsDigit(c) || c in "._%+-" }
  predicate IsDomainChar(c: char) { IsLetter(c) || IsDigit(c) || c in ".-" }

  /** `[a-zA-Z0-9.-]+\.[a-zA-Z]{2,}`: a label run, a dot, and a top-level part of two or more letters. */
  ghost predicate DomainShape(d: string)
  {
    exists j :: 0 < j < |d| - 2 && d[j] == '.'
      && (forall k :: 0 <= k < j ==> IsDomainChar(d[k]))
      && (forall k :: j < k < |d| ==> IsLetter(d[k]))
  }

  /** The shape of a match of EMAIL_REGEX; an ad-hoc pattern, not an RFC 5322 addr-spec. */
  ghost predicate EmailShape(s: string)
  {
    exists at :: 0 < at < |s| && s[at] == '@'
      && (forall k :: 0 <= k < at ==> IsLocalChar(s[k]))
      && DomainShape(s[at + 1..])
  }

  /** A candidate of the e-mail shape has exactly one `@`, and its website is "https://" plus its domain. */
  lemma ShapedEmailWebsite(s: string, at: nat)
    requires at < |s| && s[at] == '@'
    requires forall k :: 0 <= k < at ==> IsLocalChar(s[k])
    requires DomainShape(s[at + 1..])
    ensures GetWebsiteFromEmail(s) == Https + s[at + 1..]
  {
    var d := s[at + 1..];
    var j :| 0 < j < |d| - 2 && d[j] == '.'
      && (forall k :: 0 <= k < j ==> IsDomainChar(d[k]))
      && (forall k :: j < k < |d| ==> IsLetter(d[k]));
    assert forall k :: 0 <= k < |d| ==> d[k] != '@' by {
      forall k | 0 <= k < |d| ensures d[k] != '@' {
        if k < j { assert IsDomainChar(d[k]); }
        else if k > j { assert IsLetter(d[k]); }
      }
    }
    assert '@' !in s[..at] by {
      forall k | 0 <= k < at ensures s[..at][k] != '@' { assert IsLocalChar(s[k]); }
    }
    assert s == s[..at] + "@" + d + [];
    WebsiteIsFirstDomain(s[..at], d, []);
  }

  // ---------------------------------------------------------------------------
  // Page scraper, after the fetch (scraper_email.py:34-60)
  // ---------------------------------------------------------------------------

  /**
   * What the fetch of one URL produced. `FetchRaised` stands for an exception from
   * the HTTP request or the HTML parser; a response carries the status code, the
   * EMAIL_REGEX matches in the visible text, and the first LINKEDIN_REGEX and
   * FACEBOOK_REGEX matches in the raw markup.
   */
  datatype Fetch =
    | FetchRaised
    | Response(status: int, candidates: seq<string>,
               linkedinMatch: Option<string>, facebookMatch: Option<string>)

  /** The dictionary `scrape_page` returns. */
  datatype PageData = PageData(emails: set<string>, linkedin: Option<string>, facebook: Option<string>)

  const EmptyPage: PageData := PageData({}, None, None)

  predicate Succeeded(fetch: Fetch) { fetch.Response? && fetch.status == 200 }

  /** The page yields `e`: a successful fetch whose visible text has `e` as a valid candidate. */
  predicate Yields(fetch: Fetch, e: string)
  {
    Succeeded(fetch) && e in fetch.candidates && IsValidEmail(e)
  }

  function LinkedInOf(fetch: Fetch): Option<string>
  {
    if Succeeded(fetch) then fetch.linkedinMatch else None
  }

  function FacebookOf(fetch: Fetch): Option<string>
  {
    if Succeeded(fetch) then fetch.facebookMatch else None
  }

  /**
   * `scrape_page` from the response on: a failed fetch or a non-200 status gives the
   * empty result; otherwise the valid candidates, with their original casing,
   * collapsed into a set, and the two social matches, each set independently.
   */
  method ScrapePage(fetch: Fetch) returns (data: PageData)
    ensures !Succeeded(fetch) ==> data == EmptyPage
    ensures forall e :: e in data.emails <==> Yields(fetch, e)
    ensures data.linkedin == LinkedInOf(fetch)
    ensures data.facebook == FacebookOf(fetch)
    ensures fetch.Response? && (forall c :: c in fetch.candidates ==> EmailShape(c)) ==>
              forall e :: e in data.emails ==> EmailShape(e)
  {
    data := EmptyPage;
    if fetch.FetchRaised? || fetch.status != 200 {
      return;
    }
    var i := 0;
    while i < |fetch.candidates|
      invariant 0 <= i <= |fetch.candidates|
      invariant data.linkedin == None && data.facebook == None
      invariant forall e :: e in data.emails <==> e in fetch.candidates[..i] && IsValidEmail(e)
    {
      var email := fetch.candidates[i];
      if IsValidEmail(email) {
        data := data.(emails := data.emails + {email});
      }
      assert fetch.candidates[..i + 1] == fetch.candidates[..i] + [email];
      i := i + 1;
    }
    assert fetch.candidates[..i] == fetch.candidates;
    if fetch.linkedinMatch.Some? {
      data := data.(linkedin := fetch.linkedinMatch);
    }
    if fetch.facebookMatch.Some? {
      data := data.(facebook := fetch.facebookMatch);
    }
  }

  // ---------------------------------------------------------------------------
  // Per-keyword search and aggregation (scraper_email.py:63-87)
  // ---------------------------------------------------------------------------

  /** The search query sent for a keyword. */
  function SearchQuery(keyword: string): string
  {
    keyword + " contact email"
  }

  /** Distinct keywords give distinct queries, so no two keywords share a search. */
  lemma SearchQueryInjective(k1: string, k2: string)
    requires SearchQuery(k1) == SearchQuery(k2)
    ensures k1 == k2
  {
    assert |k1| == |k2|;
    assert k1 == SearchQuery(k1)[..|k1|];
  }

  /**
   * One search hit: its `href` and `url` entries (absent or present) and what
   * fetching the chosen URL produced.
   */
  datatype SearchHit = SearchHit(href: Option<string>, url: Option<string>, fetch: Fetch)

  /** `r.get("href") or r.get("url")`, kept only when truthy. */
  function HitUrl(hit: SearchHit): (url: Option<string>)
    ensures url.Some? <==> (hit.href.Some? && hit.href.value != "") || (hit.url.Some? && hit.url.value != "")
    ensures url.Some? ==> url.value != ""
    ensures hit.href.Some? && hit.href.value != "" ==> url == hit.href
    ensures url.Some? && url != hit.href ==> url == hit.url
  {
    if hit.href.Some? && hit.href.value != "" then hit.href
    else if hit.url.Some? && hit.url.value != "" then hit.url
    else None
  }

  /** One entry of the list `search_and_extract_emails` returns. */
  datatype Contact = Contact(email: string, website: string, sourceUrl: string,
                             linkedin: Option<string>, facebook: Option<string>)

  /** The hit is visited (it has a URL) and its page yields `e`. */
  predicate Contributes(hit: SearchHit, e: string)
  {
    HitUrl(hit).Some? && Yields(hit.fetch, e)
  }

  /** The entry recorded for `e` when it is first found on the page of `hit`. */
  function ContactFrom(hit: SearchHit, e: string): Contact
    requires HitUrl(hit).Some?
  {
    Contact(e, GetWebsiteFromEmail(e), HitUrl(hit).value, LinkedInOf(hit.fetch), FacebookOf(hit.fetch))
  }

  /** The index of the first hit, at or after `from`, whose page yields `e`; `|hits|` if none does. */
  function FirstHitFrom(hits: seq<SearchHit>, e: string, from: nat): (k: nat)
    requires from <= |hits|
    ensures from <= k <= |hits|
    ensures k < |hits| ==> Contributes(hits[k], e)
    ensures forall j :: from <= j < k ==> !Contributes(hits[j], e)
    decreases |hits| - from
  {
    if from == |hits| then from
    else if Contributes(hits[from], e) then from
    else FirstHitFrom(hits, e, from + 1)
  }

  function FirstHit(hits: seq<SearchHit>, e: string): (k: nat)
    ensures k <= |hits|
  {
    FirstHitFrom(hits, e, 0)
  }

  function EmailsOf(contacts: seq<Contact>): seq<string>
  {
    seq(|contacts|, i requires 0 <= i < |contacts| => contacts[i].email)
  }

  /** No e-mail appears twice. */
  ghost predicate DistinctEmails(contacts: seq<Contact>)
  {
    forall i, j :: 0 <= i < j < |contacts| ==> contacts[i].email != contacts[j].email
  }

  /** Every entry comes from the first hit whose page yielded its e-mail (first seen wins). */
  ghost predicate FirstSeenWins(hits: seq<SearchHit>, contacts: seq<Contact>)
  {
    forall i :: 0 <= i < |contacts| ==>
      FirstHit(hits, contacts[i].email) < |hits| &&
      contacts[i] == ContactFrom(hits[FirstHit(hits, contacts[i].email)], contacts[i].email)
  }

  /** Every e-mail yielded by a visited hit has an entry. */
  ghost predicate Complete(hits: seq<SearchHit>, contacts: seq<Contact>)
  {
    forall k, e :: 0 <= k < |hits| && Contributes(hits[k], e) ==> e in EmailsOf(contacts)
  }

  /** Entries are in the order of the hits that first yielded them. */
  ghost predicate InHitOrder(hits: seq<SearchHit>, contacts: seq<Contact>)
  {
    forall i, j :: 0 <= i < j < |contacts| ==>
      FirstHit(hits, contacts[i].email) <= FirstHit(hits, contacts[j].email)
  }

  /** What `search_and_extract_emails` promises about its result for the given hits. */
  ghost predicate IsExtraction(hits: seq<SearchHit>, contacts: seq<Contact>)
  {
    DistinctEmails(contacts) && FirstSeenWins(hits, contacts) &&
    Complete(hits, contacts) && InHitOrder(hits, contacts)
  }

  /**
   * Bookkeeping for the fold: `origin[i]` is the hit at which `results[i]` was
   * recorded; it is the first hit (before `bound`) yielding that e-mail, and the
   * entry carries that hit's URL and social links.
   */
  ghost predicate Attributed(hits: seq<SearchHit>, results: seq<Contact>, origin: seq<nat>, bound: nat)
  {
    && |origin| == |results|
    && DistinctEmails(results)
    && (forall i :: 0 <= i < |results| ==>
          origin[i] < bound && origin[i] < |hits| && origin[i] == FirstHit(hits, results[i].email) &&
          HitUrl(hits[origin[i]]).Some? && results[i] == ContactFrom(hits[origin[i]], results[i].email))
    && (forall i, j :: 0 <= i < j < |results| ==> origin[i] <= origin[j])
  }

  /** Every e-mail yielded by a visited hit before `bound` has an entry. */
  ghost predicate CompleteBefore(hits: seq<SearchHit>, results: seq<Contact>, bound: nat)
  {
    forall k, e :: 0 <= k < bound && k < |hits| && Contributes(hits[k], e) ==> e in EmailsOf(results)
  }

  /**
   * The inner loop over one visited page's e-mails: each one not yet a key of the
   * results is added with the page's URL and social links.
   */
  method RecordPage(hits: seq<SearchHit>, k: nat, url: string, page: PageData,
                    results: seq<Contact>, ghost origin: seq<nat>)
    returns (merged: seq<Contact>, ghost mergedOrigin: seq<nat>)
    requires k < |hits| && HitUrl(hits[k]) == Some(url)
    requires forall e :: e in page.emails <==> Yields(hits[k].fetch, e)
    requires page.linkedin == LinkedInOf(hits[k].fetch) && page.facebook == FacebookOf(hits[k].fetch)
    requires Attributed(hits, results, origin, k)
    requires CompleteBefore(hits, results, k)
    ensures results <= merged
    ensures Attributed(hits, merged, mergedOrigin, k + 1)
    ensures CompleteBefore(hits, merged, k + 1)
  {
    merged, mergedOrigin := results, origin;
    var todo := page.emails;
    while todo != {}
      invariant todo <= page.emails
      invariant results <= merged
      invariant Attributed(hits, merged, mergedOrigin, k + 1)
      invariant CompleteBefore(hits, merged, k)
      invariant forall e :: e in page.emails - todo ==> e in EmailsOf(merged)
      decreases todo
    {
      var email :| email in todo;
      todo := todo - {email};
      if email !in EmailsOf(merged) {
        FirstYieldingHit(hits, k, email, merged);
        var entry := Contact(email, GetWebsiteFromEmail(email), url, page.linkedin, page.facebook);
        RecordExtends(hits, k, merged, mergedOrigin, entry);
        merged := merged + [entry];
        mergedOrigin := mergedOrigin + [k];
      }
    }
  }

  /** A page that yields an e-mail no earlier visited hit yielded is that e-mail's first hit. */
  lemma FirstYieldingHit(hits: seq<SearchHit>, k: nat, email: string, results: seq<Contact>)
    requires k < |hits| && Contributes(hits[k], email)
    requires CompleteBefore(hits, results, k)
    requires email !in EmailsOf(results)
    ensures FirstHit(hits, email) == k
  {
    var f := FirstHit(hits, email);
    if f < k {
      assert Contributes(hits[f], email);
    }
  }

  lemma RecordExtends(hits: seq<SearchHit>, k: nat, results: seq<Contact>, origin: seq<nat>, entry: Contact)
    requires k < |hits| && HitUrl(hits[k]).Some?
    requires Attributed(hits, results, origin, k + 1)
    requires FirstHit(hits, entry.email) == k
    requires entry == ContactFrom(hits[k], entry.email)
    requires entry.email !in EmailsOf(results)
    ensures EmailsOf(results + [entry]) == EmailsOf(results) + [entry.email]
    ensures Attributed(hits, results + [entry], origin + [k], k + 1)
  {
    var r := results + [entry];
    var o := origin + [k];
    assert EmailsOf(r) == EmailsOf(results) + [entry.email];
    forall i | 0 <= i < |results| ensures results[i].email != entry.email {
      assert EmailsOf(results)[i] == results[i].email;
    }
    assert DistinctEmails(r);
    forall i | 0 <= i < |r|
      ensures o[i] < k + 1 && o[i] < |hits| && o[i] == FirstHit(hits, r[i].email)
      ensures HitUrl(hits[o[i]]).Some? && r[i] == ContactFrom(hits[o[i]], r[i].email)
    {
      if i < |results| {
        assert r[i] == results[i] && o[i] == origin[i];
      }
    }
    forall i, j | 0 <= i < j < |r| ensures o[i] <= o[j] {
      if j < |results| {
        assert o[i] == origin[i] && o[j] == origin[j];
      }
    }
  }

  /**
   * The loop of `search_and_extract_emails` over the hits the search backend
   * returned for `SearchQuery(keyword)`: hits without a URL are skipped, every
   * other hit is scraped, and each e-mail not yet present is recorded with the
   * hit's URL and social links. The order in which one page's e-mails are visited
   * is that of Python's set iteration, which is left unspecified.
   */
  method SearchAndExtractEmails(hits: seq<SearchHit>) returns (results: seq<Contact>)
    ensures DistinctEmails(results)
    ensures FirstSeenWins(hits, results)
    ensures Complete(hits, results)
    ensures InHitOrder(hits, results)
  {
    results := [];
    ghost var origin: seq<nat> := [];
    for k := 0 to |hits|
      invariant Attributed(hits, results, origin, k)
      invariant CompleteBefore(hits, results, k)
    {
      var url := HitUrl(hits[k]);
      if url.None? {
        continue;
      }
      var page := ScrapePage(hits[k].fetch);
      results, origin := RecordPage(hits, k, url.value, page, results, origin);
    }
  }
}
