# Grant watcher core, modelled in Dafny

`main.py` collects subsidy and grant announcements for one target business: an
information and communications company with 56 employees in Shiojiri, Nagano.
It scrapes J-Net21 and several additional sites, merges the lists, removes
duplicates, drops grants that do not fit the business, and falls back to a
backup list when too few grants remain. This project models the deterministic
core between the network calls and proves what it guarantees.

- `strings.dfy` (`Strings`) holds the text primitives. `Lower` is `str.lower` restricted to ASCII letters.
  `Contains` is Python's `pat in s`. Its contract ties it to a declarative `Occurs`.
- `grants.dfy` (`Grants`) defines the grant record: title, url, date, description, deadline, amount, ratio.
  `description` is optional, so the `.get("description", "")` default can be modelled.
- `subsequence.dfy` (`Subsequences`) defines `Pick(s, keep)`, the elements of `s` whose flag is set, in order.
  Every list pass returns `Pick(input, mask)` for a mask that its lemmas characterise position by position.
- `target_filter.dfy` (`TargetFilter`) models `filter_grants_for_target_business`, with its `include` flag and append loop:
  - the region rule: another prefecture named and `長野` absent;
  - the industry rule: agriculture, forestry or fishery named and no IT keyword.
- `dedup.dfy` (`Dedup`) models the two deduplication loops:
  - the two-key loop that ends `scrape_additional_sources`, keyed on the URL before its `?` and on the normalised title;
  - the exact-URL loop of `main`, which is also the loop at the end of the older copy of `scrape_additional_sources`.
- `deadline.dfy` (`DeadlineRule`) models the deadline regex `([0-9]{4}年[0-9]{1,2}月[0-9]{1,2}日).*(締切|締め切り|〆切)` under `re.search` semantics:
  - the leftmost start position wins;
  - `.` does not cross a line feed;
  - `group(1)` is the date.
- `item_rules.dfy` (`ItemRules`) holds the per-item rules of the scraping loops: description truncation, the subsidy-keyword gate, the short-title gate and the absolute-URL branch.
  It also holds the record builders of the METI, Nagano SME centre and JCCI loops, which combine those rules.
- `pipeline.dfy` (`Pipeline`) models the tail of `main`: concatenate, exact-URL dedup, filter, backup when fewer than 3 grants remain.

`normalize_text` and `urljoin` are not part of this model. They appear as
function parameters (`normalize`, `join`) about which nothing is assumed,
except where a lemma's `requires` says otherwise. The run's date
(`datetime.datetime.now()`) is the parameter `today`.

The filter in the code has no "force include" override. A grant whose title names
another prefecture and not Nagano is dropped even when it carries an IT keyword
such as `DX` (main.py:18-36). The model follows the code: see
`RegionRuleHasNoOverride` and `HokkaidoDxGrantDropped`. The code also has no
"applications closed" exclusion, and the model has none.

## Model

| member | source | states |
|---|---|---|
| `Strings.Lower` | main.py:14-15 | lower-casing keeps the length, maps each character by `LowerChar`, and leaves no ASCII upper-case letter |
| `Strings.Contains` | main.py:18-32 | the left-to-right scan for `pat in s` is true exactly when `pat` occurs at some position of `s` |
| `Strings.ContainsAnyMember` | main.py:18-28 | `any(p in s for p in pats)` holds exactly when some pattern of the list occurs in `s` |
| `Strings.LowerKeepsLetterFreeMatch` | main.py:14-33 | lower-casing the searched text does not change whether a pattern with no ASCII letter (a prefecture, a primary-industry word, a subsidy keyword) occurs in it |
| `TargetFilter.FilterForTargetBusiness` | main.py:2-39 | returns exactly the included grants of its input, in input order (`Pick` over the inclusion mask); every returned grant is included; `location`, `industry` and `employees` do not occur in the result |
| `TargetFilter.MentionsAnyKeywordMember` | main.py:31-32 | the IT-keyword test holds exactly when some keyword, lower-cased, occurs in the lower-cased title or description |
| `TargetFilter.FilteredAllIncluded` | main.py:10-39 | every grant the filter returns passes both rules |
| `TargetFilter.FilteredMembers` | main.py:10-36 | a grant is in the filtered list exactly when it is in the input and passes both rules |
| `TargetFilter.PrefecturesLetterFree` | main.py:18-28 | no listed prefecture and not `長野` contains an ASCII letter |
| `TargetFilter.RegionRuleOnRawTitle` | main.py:14-28 | the region rule drops a grant exactly when its title as scraped contains one of the 46 other prefectures and does not contain `長野` |
| `TargetFilter.IndustryRuleOnRawTitle` | main.py:14-33 | the industry rule drops a grant exactly when its title contains `農業`, `農林` or `漁業` and no IT keyword occurs case-insensitively in the title or the description; a missing description reads as "" |
| `TargetFilter.IncludedExactly` | main.py:10-36 | a grant is kept exactly when it passes the region rule and the industry rule, both stated on the record as scraped |
| `TargetFilter.RegionRuleHasNoOverride` | main.py:18-36 | a title naming another prefecture and not `長野` is dropped whatever else it says: there is no override |
| `TargetFilter.IndustryRuleNeedsItKeyword` | main.py:5-36 | a kept grant whose title names a primary industry carries an IT keyword, case-insensitively, in its title or description |
| `TargetFilter.HokkaidoDxGrantDropped` | main.py:18-36 | the grant "北海道中小企業DX補助金" is filtered out although `DX` is an IT keyword |
| `Dedup.UrlKey` | main.py:357 | the URL key is a prefix of the URL, contains no `?`, and is followed in the URL by `?` when it is shorter than the URL |
| `Dedup.UrlKeyIgnoresQuery` | main.py:357 | a URL with a query string has the URL before the `?` as its key |
| `Dedup.SeenKeysMatchKept` | main.py:355-362 | checking the recorded `urls` and `titles` sets is the same as comparing with every grant kept so far, and keeping a grant adds exactly its two keys |
| `Dedup.DedupAdditionalSources` | main.py:350-363 | returns the two-key selection of its input; no two returned grants share a URL key or a normalised title |
| `Dedup.TwoKeyKeysDistinct` | main.py:355-362 | no two grants kept by the two-key pass share a URL key or a normalised title |
| `Dedup.TwoKeyKeepsExactly` | main.py:357-362 | the two-key pass keeps a grant exactly when no earlier kept grant has the same URL key or the same normalised title, and returns the kept grants in input order |
| `Dedup.TwoKeyKeepsFirst` | main.py:355-362 | the first grant of a non-empty input is kept and stays first |
| `Dedup.TwoKeyFixesDistinct` | main.py:355-362 | a list whose grants have pairwise distinct keys passes unchanged |
| `Dedup.TwoKeyIdempotent` | main.py:350-363 | applying the two-key pass to its own output changes nothing |
| `Dedup.QueryVariantDropped` | main.py:357-362 | of two grants whose URLs differ only after the `?`, only the first is kept, whatever their titles |
| `Dedup.DedupByUrl` | main.py:801-808 | the set-based loop returns `UniqueByUrl`, the grants that no earlier grant shares a URL with (`FirstUrlMask`), in input order; the set of URLs is unchanged; no two returned grants share a URL |
| `Dedup.UniqueByUrlKeepsFirstOccurrence` | main.py:805-808 | for each URL of the input, the grant at that URL's first index is kept, and every kept grant with that URL is that grant |
| `Dedup.UniqueByUrlCovers` | main.py:775-781 | the exact-URL pass loses no URL of its input and keeps each URL once |
| `Dedup.UniqueByUrlPrefersFirstList` | main.py:799-808 | after merging, the first list's survivors come first; every later survivor comes from the second list and has a URL the first list lacks |
| `Dedup.QueryVariantsBothKept` | main.py:805-808 | two grants whose URLs differ only in their query string are both kept |
| `DeadlineRule.DateShapeUnique` | main.py:275 | at one position the date group can match in at most one way: the month and day widths are determined |
| `DeadlineRule.DateLengthAt` | main.py:275 | a non-zero result is the length of a date match at the position, and any date match there has that length |
| `DeadlineRule.LineFeedStopsMarker` | main.py:275 | `.*` does not cross a line feed: from a line feed no marker is found |
| `DeadlineRule.MatchesAtByLength` | main.py:275 | the pattern matches at a position exactly when a date starts there and a marker follows it on its line |
| `DeadlineRule.MarkerFollows` | main.py:275 | true exactly when a marker starts at or after the position with no line feed in between (`.*` then the second group) |
| `DeadlineRule.FirstMatch` | main.py:275 | finds the leftmost position from which the whole pattern matches, or reports that there is none |
| `DeadlineRule.ExtractDeadline` | main.py:275-276 | returns the sentinel exactly when the pattern matches at no position of the description |
| `DeadlineRule.ExtractDeadlineIsLeftmostMatch` | main.py:275-276 | any other result is the date text at the leftmost match position: a date followed on its line by a marker, with no match starting earlier |
| `DeadlineRule.DeadlineIsSentinelOrDate` | main.py:275-276 | the stored deadline is the sentinel or a complete `NNNN年N月N日` date text |
| `DeadlineRule.StartDateTakenBeforeDeadlineDate` | main.py:275-276 | in "2025年4月1日開始、2025年5月31日締切" the first date, the start date, is returned |
| `DeadlineRule.MarkerOnNextLineIgnored` | main.py:275-276 | a marker on the line after the date is not seen, and the sentinel is returned |
| `ItemRules.TruncateDescription` | main.py:283 | the stored description has at most 203 characters; it is the original when that has at most 200; otherwise it is the first 200 characters followed by `...` |
| `ItemRules.TruncateIdempotent` | main.py:283 | truncating a stored description again changes nothing |
| `ItemRules.TruncateKeepsPrefix` | main.py:283 | the stored description starts with the original's first characters, up to 200 |
| `ItemRules.SubsidyGateOnRawText` | main.py:246-248 | the gate passes exactly when `補助`, `助成`, `支援金` or `給付金` occurs in the item text as scraped |
| `ItemRules.TitleLongEnough` | main.py:150 | a title is accepted exactly when it has at least 5 characters |
| `ItemRules.ResolveUrlIdempotent` | main.py:101-102 | a resolved URL that starts with `http` is unchanged when resolved again, whatever the join does |
| `ItemRules.MetiGrant` | main.py:148-168 | a link yields a record exactly when its title has at least 5 characters and its href is present and non-empty; the record carries the fixed METI description and the sentinel deadline, amount and ratio |
| `ItemRules.NaganoCenterGrant` | main.py:244-286 | an item yields a record exactly when it passes the subsidy gate and has a title element and an href; the record has the date or today; its description is `TruncateDescription` of the item description (the description itself up to 200 characters, else its first 200 characters followed by `...`); its deadline is read from the untruncated description |
| `ItemRules.NaganoCenterDeadline` | main.py:275-283 | the deadline of a Nagano SME centre record is the sentinel or a date text |
| `ItemRules.JcciGrant` | main.py:309-344 | an item yields a record exactly when it passes the subsidy gate and has a title element and an href; the record carries the fixed JCCI description and the date element's text or today |
| `Pipeline.WithBackup` | main.py:817-820 | the result is the filtered list or the backup list; it is the filtered list when that has at least 3 grants; it has at least 3 grants unless it is the backup |
| `Pipeline.CollectGrants` | main.py:787-820 | the merge, dedup, filter and backup statements of `main` compute the composition of the passes' specifications |
| `Pipeline.PipelineOutcome` | main.py:799-820 | the final list is the backup, or it has at least 3 grants that all pass the filter, have distinct URLs, and come from J-Net21 or are additional grants whose URL J-Net21 did not list |

## Left out

- HTTP fetching (`requests.get`, headers, timeouts, status codes) and HTML parsing (BeautifulSoup `select`/`select_one`) are I/O and a foreign library.
  An item is given by the strings its selectors would produce.
  The `or`-chains between selectors are folded into one optional argument.
- `urljoin` and `normalize_text` are library or unseen code. They are uninterpreted parameters, and no property of `normalize_text` is claimed.
- `scrape_jnet21_grants` and `get_national_grants` are not part of this model. Their lists are inputs of `CollectGrants`.
- `evaluate_grant_with_gpt` (main.py:41-68) is a network call to a language model with no response parser, so it is left out.
- `datetime.datetime.now().strftime(...)` is a clock read. It is the parameter `today`, and its format is not modelled.
- `print` logging is left out throughout.
- `Strings.Lower`: `str.lower` is modelled for ASCII letters only.
  Every pattern the rules look for is either ASCII or free of letters that lower-casing changes.
  Only a non-ASCII capital in a title or description could make the two differ.
- `ItemRules.NaganoCenterGrant`: takes the description already stripped and with the title removed (main.py:266-268). The `strip`/`replace` steps are not modelled.
- `ItemRules.MetiGrant`, `ItemRules.NaganoCenterGrant`, `ItemRules.JcciGrant`: take the title and date texts already stripped by `.text.strip()` (main.py:149, 254, 272, 320, 333). White-space stripping is not modelled, so the 5-character title test of main.py:150 is stated on the stripped title.
- `ItemRules.ResolveUrlIdempotent`: does not promise that a resolved URL is absolute. `urljoin` returns an href such as `mailto:a` or `javascript:void(0)` unchanged, and main.py:153-158 accepts any non-empty href.
- The Mirasapo and GビズID loops (main.py:88-125, 191-222) build records from the same URL rule. Their record builders are not modelled separately.
- The damaged repeated fragments at main.py:367-784 start in the middle of a statement and do not form a program. Only their exact-URL loop (main.py:775-781) is modelled, by `Dedup.DedupByUrl`.
- The exceptions caught per source (`except Exception`) are left out: a failing source simply contributes fewer items, and every list here is an input.
- Python strings are sequences of code points, and Dafny strings are sequences of Unicode scalar values, so lengths agree. Surrogate code points, which Python allows and Dafny does not, are not modelled.
