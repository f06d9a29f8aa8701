/** The per-item rules of the scraping loops in `scrape_additional_sources`:
    description truncation, the subsidy-keyword gate, the short-title gate and
    the absolute-URL branch, and the record builders of the METI, Nagano SME
    centre and JCCI loops that combine them. An item is given by the strings the
    HTML selectors would have produced; `None` stands for an element that was not found. */
module ItemRules {
  import opened Strings
  import opened Grants
  import opened DeadlineRule

  // ---------------------------------------------------------------------------
  // Description truncation
  // ---------------------------------------------------------------------------

  const DescriptionLimit: nat := 200
  const Ellipsis: string := "..."

  /** `description[:200] + "..." if len(description) > 200 else description`. */
  function TruncateDescription(desc: string): (r: string)
    ensures |r| <= DescriptionLimit + |Ellipsis|
    ensures |desc| <= DescriptionLimit ==> r == desc
    ensures |desc| > DescriptionLimit ==>
      |r| == DescriptionLimit + |Ellipsis| && r[..DescriptionLimit] == desc[..DescriptionLimit] &&
      r[DescriptionLimit..] == Ellipsis
  {
    if |desc| > DescriptionLimit then desc[..DescriptionLimit] + Ellipsis else desc
  }

  /** Truncating a stored description again changes nothing. */
  lemma TruncateIdempotent(desc: string)
    ensures TruncateDescription(TruncateDescription(desc)) == TruncateDescription(desc)
  {
    var r := TruncateDescription(desc);
    if |desc| > DescriptionLimit {
      assert r[..DescriptionLimit] + Ellipsis == r;
    }
  }

  /** The stored description always begins with the original's first characters,
      up to the limit. */
  lemma TruncateKeepsPrefix(desc: string, k: nat)
    requires k <= DescriptionLimit && k <= |desc|
    ensures k <= |TruncateDescription(desc)| && TruncateDescription(desc)[..k] == desc[..k]
  {
    var r := TruncateDescription(desc);
    if |desc| > DescriptionLimit {
      assert r[..k] == r[..DescriptionLimit][..k];
      assert desc[..k] == desc[..DescriptionLimit][..k];
    }
  }

  // ---------------------------------------------------------------------------
  // Subsidy-keyword gate (Nagano SME centre and JCCI loops)
  // ---------------------------------------------------------------------------

  const SubsidyKeywords: seq<string> := ["補助", "助成", "支援金", "給付金"]

  /** `any(keyword in item.text.lower() for keyword in [...])`. */
  predicate MentionsSubsidy(itemText: string) {
    ContainsAny(Lower(itemText), SubsidyKeywords)
  }

  lemma SubsidyKeywordsLetterFree()
    ensures forall kw :: kw in SubsidyKeywords ==> LetterFree(kw)
  {
  }

  /** Lower-casing the item text is immaterial: the gate passes exactly when one of
      the four keywords occurs in the text as scraped. */
  lemma SubsidyGateOnRawText(itemText: string)
    ensures MentionsSubsidy(itemText) <==> exists kw :: kw in SubsidyKeywords && Occurs(itemText, kw)
  {
    SubsidyKeywordsLetterFree();
    ContainsAnyMember(Lower(itemText), SubsidyKeywords);
    forall kw | kw in SubsidyKeywords
      ensures Occurs(Lower(itemText), kw) <==> Occurs(itemText, kw)
    {
      LowerKeepsLetterFreeMatch(itemText, kw);
    }
  }

  // ---------------------------------------------------------------------------
  // Short-title gate (METI loop)
  // ---------------------------------------------------------------------------

  const MinTitleLength: nat := 5

  /** The negation of `not title or len(title) < 5`: the empty-title test is subsumed
      by the length test. */
  function TitleLongEnough(title: string): (r: bool)
    ensures r <==> |title| >= MinTitleLength
  {
    !(title == [] || |title| < MinTitleLength)
  }

  // ---------------------------------------------------------------------------
  // Absolute-URL branch
  // ---------------------------------------------------------------------------

  /** `url if url.startswith("http") else urljoin(base, url)`. `join` stands for
      `urljoin`, whose definition is not part of this model. */
  function ResolveUrl(href: string, base: string, join: (string, string) -> string): (r: string)
    ensures "http" <= href ==> r == href
    ensures !("http" <= href) ==> r == join(base, href)
  {
    if "http" <= href then href else join(base, href)
  }

  /** A resolved URL that starts with `http` is left alone when resolved again, whatever
      `urljoin` does. Nothing is claimed about a join result such as `mailto:a`, which
      `urljoin` returns unchanged and which would be joined again. */
  lemma ResolveUrlIdempotent(href: string, base: string, join: (string, string) -> string)
    ensures "http" <= ResolveUrl(href, base, join) ==>
      ResolveUrl(ResolveUrl(href, base, join), base, join) == ResolveUrl(href, base, join)
  {
  }

  // ---------------------------------------------------------------------------
  // Record builders
  // ---------------------------------------------------------------------------

  const MetiBase: string := "https://www.meti.go.jp"
  const MetiDescription: string := "経済産業省の助成金・補助金制度"
  const NaganoCenterBase: string := "https://www.nice-nagano.or.jp"
  const JcciBase: string := "https://www.jcci.or.jp"
  const JcciDescription: string := "日本商工会議所からの情報提供"

  /** `href` is present and not empty: the negation of `not url` / `not link_elem.get("href")`. */
  predicate HasHref(href: Option<string>) {
    href.Some? && href.value != ""
  }

  /** One pass of the METI loop over a link: `title` is the link text already stripped of
      surrounding white space (so the 5-character test sees the stripped text), `href` its
      attribute; `today` is the run's date. */
  function MetiGrant(title: string, href: Option<string>, today: string, join: (string, string) -> string)
    : (r: Option<Grant>)
    ensures r.Some? <==> |title| >= MinTitleLength && HasHref(href)
    ensures r.Some? ==>
      r.value.title == title && r.value.date == today &&
      ("http" <= href.value ==> r.value.url == href.value) &&
      r.value.description == Some(MetiDescription) &&
      r.value.deadline == NotStated && r.value.amount == NotStated && r.value.ratio == NotStated
  {
    if !TitleLongEnough(title) then None
    else if !HasHref(href) then None
    else
      var url := ResolveUrl(href.value, MetiBase, join);
      Some(Grant(title, url, today, Some(MetiDescription), NotStated, NotStated, NotStated))
  }

  /** One pass of the Nagano SME centre loop. `itemText` is the item's whole text,
      `title` the stripped text of the first heading-like element (`None` when there is none),
      `href` the link's attribute, `description` the stripped item text with the title removed,
      and `dateText` the stripped text of the date element ("" when there is none). */
  function NaganoCenterGrant(
    itemText: string, title: Option<string>, href: Option<string>,
    description: string, dateText: string, today: string, join: (string, string) -> string)
    : (r: Option<Grant>)
    ensures r.Some? <==> MentionsSubsidy(itemText) && title.Some? && HasHref(href)
    ensures r.Some? ==>
      r.value.title == title.value &&
      ("http" <= href.value ==> r.value.url == href.value) &&
      r.value.date == (if dateText != "" then dateText else today) &&
      r.value.description == Some(TruncateDescription(description)) &&
      |r.value.description.value| <= DescriptionLimit + |Ellipsis| &&
      (|description| <= DescriptionLimit ==> r.value.description.value == description) &&
      (|description| > DescriptionLimit ==>
        r.value.description.value == description[..DescriptionLimit] + Ellipsis) &&
      r.value.deadline == ExtractDeadline(description) &&
      r.value.amount == NotStated && r.value.ratio == NotStated
  {
    if !MentionsSubsidy(itemText) then None
    else if title.None? then None
    else if !HasHref(href) then None
    else
      var url := ResolveUrl(href.value, NaganoCenterBase, join);
      var deadline := ExtractDeadline(description);
      var date := if dateText != "" then dateText else today;
      Some(Grant(title.value, url, date, Some(TruncateDescription(description)), deadline, NotStated, NotStated))
  }

  /** The deadline of a Nagano SME centre record is read from the whole description,
      before truncation, and is the sentinel or a date text. */
  lemma NaganoCenterDeadline(
    itemText: string, title: Option<string>, href: Option<string>,
    description: string, dateText: string, today: string, join: (string, string) -> string)
    requires NaganoCenterGrant(itemText, title, href, description, dateText, today, join).Some?
    ensures var g := NaganoCenterGrant(itemText, title, href, description, dateText, today, join).value;
      g.deadline == NotStated || IsDateText(g.deadline)
  {
    DeadlineIsSentinelOrDate(description);
  }

  /** One pass of the JCCI loop; the arguments are as for the Nagano SME centre: `title`
      and `dateText` are the stripped texts of their elements, `dateText` is `None` when
      there is no date element. */
  function JcciGrant(
    itemText: string, title: Option<string>, href: Option<string>,
    dateText: Option<string>, today: string, join: (string, string) -> string)
    : (r: Option<Grant>)
    ensures r.Some? <==> MentionsSubsidy(itemText) && title.Some? && HasHref(href)
    ensures r.Some? ==>
      r.value.title == title.value &&
      ("http" <= href.value ==> r.value.url == href.value) &&
      r.value.date == (if dateText.Some? then dateText.value else today) &&
      r.value.description == Some(JcciDescription) &&
      r.value.deadline == NotStated && r.value.amount == NotStated && r.value.ratio == NotStated
  {
    if !MentionsSubsidy(itemText) then None
    else if title.None? then None
    else if !HasHref(href) then None
    else
      var url := ResolveUrl(href.value, JcciBase, join);
      var date := if dateText.Some? then dateText.value else today;
      Some(Grant(title.value, url, date, Some(JcciDescription), NotStated, NotStated, NotStated))
  }
}
