# Security Daily Watch: severity classifier and news collection loop

This is a Dafny model of the core of a small security-news dashboard
generator. The generator queries a news search page once per configured
keyword. It keeps at most three headlines per keyword and tags each one with
a severity tier (RED, AMBER or GREEN) chosen from trigger words in its title.
If nothing at all was collected, it hands on a single RED "collection failed"
item.

Two modules, one per piece of logic in `app.py`:

- `Risk` (`risk.dfy`) models `get_risk`, which is pure.
  - `Classify` lower-cases the title and runs `AnyOccurs`, the executable
    `any(...)` built on the substring search `Occurs`, over the RED triggers
    and then over the AMBER triggers.
  - `Contains` gives substring containment its meaning, and the lemmas prove
    the classifier against it: each tier holds exactly when its conditions
    hold, RED wins over AMBER, ASCII case does not matter, and the three
    example titles get the expected tiers.
- `Crawler` (`crawler.dfy`) models the loop inside `crawl` as the method
  `Crawl`.
  - The outer `while` loop walks the keywords. For each keyword whose query
    returned a listing it calls the method `AppendLinked`, whose loop walks
    the first three anchors and appends one item at a time to `results`.
  - `AppendLinked` is proved against the specification function `Appended`,
    and `Crawl` against `Contribution`, `Collected` and `Report`. The lemmas
    prove what the loop promises: the cap, where each item comes from,
    isolation of failures, and the fallback.

The network request and the HTML parse are replaced by an input: one
`Outcome` per keyword. An outcome is either `FetchFailed`, meaning the
exception came before any anchor was read, or `Listing(entries)`, the `a.news_tit`
anchors in page order, each with its text and its `href`, which may be
missing. The current date is the parameter `today`.

Reading `item['href']` on an anchor without that attribute raises. The bare
`except: pass` then abandons the rest of that keyword, and the items already
appended for it stay in `results`. The model does exactly this: a keyword
contributes the items of the longest linked prefix of its first three
anchors (`Appended`, `AppendedIsLinkedPrefix`).

Behaviour of the code worth noting:
- An anchor without a link stops the collection for its keyword. The anchors
  after it are not read.
- The cap of three is applied to the anchors (`[:3]`) before any link is
  read, so a keyword can contribute fewer than three items even when its page
  lists more linked anchors.
- An item's date is the date at collection time. It is not a date from the
  news page.
- There is no transport-safe encoder. The data is written with `json.dumps`
  only, so there is no `decode(encode(x)) == x` property in this code to
  model.

## Model

| member | source | states |
|---|---|---|
| `Risk.Classify` | app.py:12-16 | `get_risk`: lower-case the title, test the RED triggers `RedTriggers` (app.py:14), then the AMBER triggers `AmberTriggers` (app.py:15), else GREEN. It carries no contract of its own; what each tier means is stated by `ClassifyMeaning`, `RedDominates` and `AmberWithoutRed`. |
| `Risk.ClassifyMeaning` | app.py:12-16 | The result is RED exactly when some RED trigger occurs in the lower-cased title. It is AMBER exactly when no RED trigger and some AMBER trigger occurs. It is GREEN exactly when no trigger of either list occurs. |
| `Risk.AnyOccurs` | app.py:14-15 | `any(x in t for x in ts)` is true exactly when some trigger of the list occurs as a substring of `t`. |
| `Risk.Occurs` | app.py:14-15 | Python's `x in t`: whether `x` is a prefix of some suffix of `t`. Its contract is `OccursIff`. |
| `Risk.OccursIff` | app.py:14-15 | The executable substring search succeeds exactly when the pattern occurs at some offset of the text (Python's `x in t`). |
| `Risk.Lower` | app.py:13 | Lower-casing keeps the length and maps each character on its own: ASCII capitals become small letters and every other character stays as it is. |
| `Risk.LowerKeepsContains` | app.py:13 | Lower-casing character by character carries every occurrence of a pattern over to the lower-cased pattern in the lower-cased text. |
| `Risk.TriggersAreLowerCase` | app.py:14-15 | Every configured trigger is unchanged by lower-casing, so lower-casing the title never hides a trigger. |
| `Risk.RedDominates` | app.py:14 | A title that contains a RED trigger, in any case, is RED even when it also contains AMBER triggers. |
| `Risk.AmberWithoutRed` | app.py:15 | A title that contains an AMBER trigger and no RED trigger is AMBER. |
| `Risk.ClassifyIgnoresCase` | app.py:13 | Lower-casing a title first does not change its tier. |
| `Risk.NoTriggerInitialIsGreen` | app.py:14-16 | A title with no ASCII capital and no character that begins a trigger falls through both `any` tests and is GREEN. |
| `Risk.ExampleRed` | app.py:14 | "해킹 공격으로 개인정보 유출" is RED. |
| `Risk.ExampleAmber` | app.py:15 | "시스템 점검 안내" is AMBER. |
| `Risk.ExampleGreen` | app.py:16 | "신규 서비스 출시" is GREEN. |
| `Crawler.FirstEntries` | app.py:29 | The `[:3]` slice: a prefix of the anchors of length 3, or all of them when fewer. |
| `Crawler.ItemFor` | app.py:30-35 | The dictionary appended for one anchor: this keyword, the anchor's text, its `href`, the date and `get_risk` of the text. Its contract is stated about the collected items by `AppendedIsLinkedPrefix` and `CollectedItems`. |
| `Crawler.Appended` | app.py:29-36 | The inner loop over the first anchors, stopping at the first one without a link. Its contract is `AppendedIsLinkedPrefix`. |
| `Crawler.AppendedIsLinkedPrefix` | app.py:29-36 | Appending stops at the first anchor without a link. Item `i` is built from anchor `i` with the keyword, the anchor's text, its link, the date and the tier of that text. |
| `Crawler.Contribution` | app.py:24-37 | What one keyword's `try` block leaves in `results`: nothing when the query fails, otherwise the items for its first three anchors up to the first one without a link. Its contract is `ContributionSpec`. |
| `Crawler.ContributionSpec` | app.py:24-37 | A failed query adds nothing. A listing adds at most 3 items, taken from its first anchors in page order, each with this keyword, the supplied date and `risk == get_risk(title)`. When it adds fewer than 3 items and fewer than its anchors, the next anchor lacks a link. |
| `Crawler.MissingLinkTruncates` | app.py:33-37 | If anchor `i` lacks a link, the keyword contributes at most the `i` items before it. |
| `Crawler.AppendLinked` | app.py:29-36 | The inner loop appends, to the results it is given, exactly the items of `Appended` for the batch: one per anchor in page order, stopping at the first anchor without a link. |
| `Crawler.Crawl` | app.py:18-39 | The loop's result is the contributions of the keywords joined in keyword order, or the single placeholder when that is empty. It is the placeholder or holds at most 3 items per keyword. |
| `Crawler.Contributions` | app.py:23-37 | One entry per keyword, in keyword order, each being that keyword's contribution. It has as many entries as there are keywords. |
| `Crawler.Collected` | app.py:23-37 | `results` after the `for kw in KEYWORDS` loop: the keywords' contributions joined in keyword order. Its contracts are `ContributionsStep`, `CollectedBound`, `CollectedItems`, `CollectedAppend` and `CollectedEmptyIff`. |
| `Crawler.ContributionsStep` | app.py:23-37 | Handling one more keyword appends exactly its contribution to the results collected so far. |
| `Crawler.CollectedBound` | app.py:23-36 | The collected results never exceed 3 times the number of keywords. |
| `Crawler.CollectedItems` | app.py:30-35 | Every collected item carries one of the keywords, the supplied date, and the tier of its own title. |
| `Crawler.CollectedAppend` | app.py:23-37 | Running over two keyword lists one after the other gives the first list's results followed by the second's. No keyword removes earlier items, and later keywords are still processed. |
| `Crawler.FailedKeywordIsInvisible` | app.py:24-37 | Inserting a keyword whose query fails anywhere in the list leaves the results unchanged. |
| `Crawler.FailedAlone` | app.py:37 | A single failed keyword collects nothing. |
| `Crawler.CollectedEmptyIff` | app.py:23-39 | Nothing is collected exactly when every keyword contributes nothing. |
| `Crawler.ReportFallback` | app.py:39 | When no keyword contributes, including when every query fails or lists nothing, the result is exactly one RED placeholder item (`Placeholder`: keyword "시스템", title "데이터 수집 실패", link "#", date "-"). Otherwise it is the collected results, which are non-empty. The result is the placeholder if and only if nothing was collected. |
| `Crawler.Report` | app.py:39 | The returned list is never empty. |
| `Crawler.PlaceholderTitleIsGreen` | app.py:12-16 | The placeholder's title "데이터 수집 실패" (app.py:39) holds no trigger, so `get_risk` would rate it GREEN, although the placeholder is tagged RED. |
| `Crawler.PlaceholderIsDistinct` | app.py:30-39 | Every collected item has the tier of its own title and the placeholder does not, so the placeholder is never among the collected items, whatever the date. |
| `Crawler.ConfiguredBound` | app.py:9-39 | With the seven configured keywords (`Keywords`, app.py:9), the returned list holds between 1 and 21 items. |
| `Crawler.IsolationExample` | app.py:23-37 | With keywords A and B, where A's query fails and B lists three linked anchors, the results are exactly B's three items. |

## Left out

- The HTTP request, its User-Agent header and timeout (app.py:21, app.py:25-26): network I/O. Each keyword's result is an `Outcome` input instead. A non-success status is not checked by the code, so it shows up as whatever listing the response text holds.
- BeautifulSoup parsing and the `a.news_tit` selection (app.py:27, app.py:29): a foreign library. They become a given sequence of `RawEntry` values, each with `get_text()` as `text` and the optional `href`.
- `datetime.datetime.now()` (app.py:34, app.py:58): an ambient clock. It is the single parameter `today`. The code reads the clock once per item, so items collected across midnight could carry two dates. The model gives every item the same date.
- `str.lower()` (app.py:13): `Lower` lower-cases ASCII letters only and leaves every other character unchanged. Full Unicode case mapping is library behaviour. All triggers are Hangul, which lower-casing leaves unchanged (`TriggersAreLowerCase`).
- Tiers are the datatype `Tier`, so "always one of RED, AMBER, GREEN" holds by typing. The strings 'RED', 'AMBER' and 'GREEN' that the code puts in the JSON output are not modelled.
- `json.dumps(..., ensure_ascii=False)` (app.py:42): a library serializer. The code has no transport-safe encoder, so there is no round trip to state.
- The HTML and JavaScript template and its rendering in the browser (app.py:44-86), writing the file (app.py:88-89) and the `print` calls (app.py:19, app.py:90) are output plumbing and UI.
- The module-level call `data = crawl()` (app.py:41) is the same as calling `Crawl` with `Keywords`.
