# Competitor website change detection, modelled in Dafny

This project models the core of a competitor-intelligence scraper. The scraper visits a
configured list of competitor pages and fetches each page with a bounded retry loop. It
reduces the page to a snapshot: its normalised text, its links and its level 1–3 headings.
It compares the snapshot with the one saved on the previous run and reports typed change
events: `new_snapshot`, `new_sections`, `removed_sections`, `content_change` and
`new_links`. The changes are logged to a results list and sent to a webhook, and the new
snapshot is saved. Beside it sits a small spreadsheet client: a row search over a sheet and
the fixed-shape rows that three logging helpers append.

The model is split into modules that follow the program:

- `Text` holds the JavaScript string operations the core relies on:
  - `\s` whitespace, `trim()` and `replace(/\s+/g, c)`;
  - `includes`, `join` and `substring(0, n)`;
  - ASCII `toLowerCase` and number rendering.
- `Seqs` holds `Array.prototype.filter` and `map`, and the laws of filtering.
- `Extractor` holds the pure part of `extractContent`. Its input is an already-parsed page:
  the body text, the anchors and the heading elements.
- `Detector` holds `detectChanges`, rule by rule, with the line diff as a parameter.
- `Fetcher` holds the `fetchPage` retry loop. The network is a function from a URL and an
  attempt number to the outcome of that attempt.
- `Orchestrator` holds `scrapeCompetitors`:
  - the snapshot file name;
  - the logging gate;
  - the webhook payload;
  - the nested page loop over a run state of results, webhook payloads and the snapshot
    directory (a map from file name to snapshot);
  - the summary count.
- `Sheets` holds `findRow` over an in-memory table and the append requests of the
  `SheetsClient`.

The backoff between fetch attempts is linear, 2000·(i+1) ms after failed attempt i. That is
what `fetchPage` does.

## Model

| member | source | states |
|---|---|---|
| Text.TrimStart | scripts/website-scraper/index.js:54 | The result is a suffix of the input that is empty or starts with a non-whitespace character. Everything dropped is whitespace. |
| Text.TrimEnd | scripts/website-scraper/index.js:54 | The result is a prefix of the input that is empty or ends with a non-whitespace character. Everything dropped is whitespace. |
| Text.TrimIsTrimmed | scripts/website-scraper/index.js:54 | `trim()` leaves no whitespace at either end. |
| Text.TrimIsSlice | scripts/website-scraper/index.js:54 | `trim()` returns the slice of its input that starts where the leading whitespace ends. |
| Text.TrimStartKeepsText | scripts/website-scraper/index.js:54 | Dropping leading whitespace keeps every other character, in order. |
| Text.TrimEndKeepsText | scripts/website-scraper/index.js:54 | Dropping trailing whitespace keeps every other character, in order. |
| Text.TrimIsTrimmedSlice | scripts/website-scraper/index.js:54 | `trim()` yields a contiguous slice of its input with no whitespace at either end. |
| Text.TrimKeepsText | scripts/website-scraper/index.js:54 | `trim()` removes only whitespace: the non-whitespace characters are unchanged, in order. |
| Text.ReplaceWhitespaceRuns | scripts/website-scraper/index.js:53 | After `replace(/\s+/g, c)` the only whitespace left is `c`, and no two whitespace characters are adjacent. Leading or trailing whitespace in the output comes from whitespace at that end of the input. |
| Text.ReplaceWhitespaceRunsKeepsText | scripts/website-scraper/index.js:53 | Collapsing whitespace runs to a whitespace character keeps every non-whitespace character, in order. |
| Text.ReplaceWhitespaceRunsWords | scripts/website-scraper/index.js:53 | `replace(/\s+/g, c)` is the words of the input (its maximal runs of non-whitespace characters) joined by single `c`s. One more `c` stands in front exactly when the input starts with whitespace, and one more at the back exactly when it ends with whitespace after a word. |
| Text.WordsAreWords | scripts/website-scraper/index.js:53 | Every word is non-empty and holds no whitespace. |
| Text.JoinWordsEnds | scripts/website-scraper/index.js:53-54 | Words joined by a separator give text that is empty exactly when there are no words, and that has no whitespace at either end. |
| Text.CollapseTrimIsJoinedWords | scripts/website-scraper/index.js:52-54 | `replace(/\s+/g, ' ').trim()` is the words of the text joined by single spaces. |
| Text.ReplaceWhitespaceRunsFixpoint | scripts/website-scraper/index.js:53 | Text already collapsed to single `c`s is left unchanged. |
| Text.ToLowerAscii | scripts/website-scraper/index.js:180-183 | Length is kept and no ASCII capital remains. Each character is either kept or is an ASCII capital shifted to its lower-case letter. |
| Text.ContainsIff | scripts/website-scraper/index.js:180-183 | `s.includes(sub)` holds exactly when `sub` occurs at some position of `s`. |
| Text.NotContainsWithoutOpeningPair | scripts/website-scraper/index.js:180-183 | A text never containing the first two characters of `sub` side by side does not include `sub`. |
| Text.Prefix | scripts/website-scraper/index.js:169-170 | `substring(0, n)` is a prefix of length min(n, length). |
| Text.NatToString | scripts/website-scraper/index.js:168 | A character count renders as a non-empty string of decimal digits whose decimal value is the count. It starts with '0' only for the count 0, which renders as one digit. |
| Seqs.Filter | scripts/website-scraper/index.js:141 | `filter` keeps exactly the elements that pass, and is never longer than its input. |
| Seqs.FilterAppend | scripts/website-scraper/index.js:141 | Filtering a concatenation is the concatenation of the filtered parts, so order is kept. |
| Seqs.FilterKeepsNone | scripts/website-scraper/index.js:151 | `filter` returns an empty list exactly when no element passes. |
| Seqs.FilterKeepsAll | scripts/website-scraper/index.js:275 | `filter` returns its input exactly when every element passes. |
| Seqs.FilterMembership | scripts/website-scraper/index.js:177 | An element is in the filtered list exactly when it is in the input and passes. |
| Extractor.TrimOfCollapsedIsNormalized | scripts/website-scraper/index.js:52-54 | Trimming text whose whitespace is single spaces gives normalised text. |
| Extractor.NormalizeText | scripts/website-scraper/index.js:52-54 | The page text is the body text's words joined by single spaces. It is therefore normalised (trimmed, plain single spaces only) and keeps every non-whitespace character of the body text, in order. |
| Extractor.NormalizeTextIdempotent | scripts/website-scraper/index.js:52-54 | Normalising twice is normalising once. |
| Extractor.AnchorLinks | scripts/website-scraper/index.js:59-63 | An anchor yields at most one link, with a non-empty href and non-empty trimmed text. |
| Extractor.ExtractLinks | scripts/website-scraper/index.js:57-64 | At most one link per anchor. Every link has a non-empty href and non-empty trimmed text. |
| Extractor.ExtractLinksIsFilterThenMap | scripts/website-scraper/index.js:57-64 | The links are the qualifying anchors in document order, each mapped to its href and trimmed text. |
| Extractor.ElementHeadings | scripts/website-scraper/index.js:68-69 | A heading element contributes at most one heading, trimmed. |
| Extractor.ExtractHeadings | scripts/website-scraper/index.js:67-70 | At most one heading per element, each trimmed. |
| Extractor.ExtractHeadingsIsFilterThenMap | scripts/website-scraper/index.js:67-70 | The headings are the trimmed texts of the h1–h3 elements, in document order, empty ones included. |
| Extractor.ExtractContent | scripts/website-scraper/index.js:45-73 | The snapshot's text is the body's words joined by single spaces. Its links are the qualifying anchors mapped to href and trimmed text, and its headings the trimmed h1–h3 texts, both in document order. It is well formed and no larger than the page. |
| Detector.NewSectionsRule | scripts/website-scraper/index.js:141-148 | At most one event, of type `new_sections`, with a significance. |
| Detector.RemovedSectionsRule | scripts/website-scraper/index.js:151-158 | At most one event, of type `removed_sections`, with a significance. |
| Detector.ContentChangeRule | scripts/website-scraper/index.js:161-173 | At most one event, of type `content_change`, with a significance. |
| Detector.NewLinksRule | scripts/website-scraper/index.js:176-192 | At most one event, of type `new_links`, with a significance. |
| Detector.InRuleOrderAppend | scripts/website-scraper/index.js:133-195 | Appending events whose types all rank after those already pushed keeps the list in rule order. |
| Detector.RulesInOrder | scripts/website-scraper/index.js:133-195 | The four rules' outputs, concatenated in code order, are in rule order. |
| Detector.DetectChanges | scripts/website-scraper/index.js:133-195 | With no previous snapshot the result is exactly the one `new_snapshot` event. Otherwise it has at most four events, none `new_snapshot`, each with a significance. Types strictly follow the order new_sections, removed_sections, content_change, new_links. |
| Detector.RuleOfKind | scripts/website-scraper/index.js:140-192 | In the concatenated rule outputs, an event type is present exactly when its rule fired, and every event of that type comes from that rule. |
| Detector.DetectChangesByRule | scripts/website-scraper/index.js:133-195 | The detector's output is the four rules in order. Each type is present exactly when its rule fired. |
| Detector.NewHeadingsMembers | scripts/website-scraper/index.js:141 | The new headings are exactly the current headings absent from the old ones. |
| Detector.RemovedHeadingsMembers | scripts/website-scraper/index.js:151 | The removed headings are exactly the old headings absent from the current ones. |
| Detector.DetectNewSections | scripts/website-scraper/index.js:141-148 | `new_sections` appears iff some current heading is not an old one. It then lists the new headings, in current order, joined by ", ", with significance High. |
| Detector.DetectRemovedSections | scripts/website-scraper/index.js:151-158 | `removed_sections` appears iff some old heading is not a current one. It then lists the removed headings, in old order, with significance Medium. |
| Detector.DetectContentChange | scripts/website-scraper/index.js:161-173 | `content_change` appears iff added or removed text exceeds 100 characters. Its excerpts are the 300-character prefixes of the removed and added text. It is High iff more than 500 characters were added, Medium otherwise. Its description is "Significant content update (N chars added, M chars removed)" with both counts written in decimal. |
| Detector.SignificantNewLinksMembers | scripts/website-scraper/index.js:176-184 | The significant new links are exactly the current links with an unseen href and keyword text. |
| Detector.DetectNewLinks | scripts/website-scraper/index.js:176-192 | `new_links` appears iff some current link has an unseen href and lowercased text containing feature/new/pricing/product. It then lists those links' texts, in current order, with significance Medium. |
| Detector.UnchangedDiffTexts | scripts/website-scraper/index.js:161-163 | A diff with no added or removed parts gives empty added and removed text. |
| Detector.DetectSelfIsEmpty | scripts/website-scraper/index.js:133-195 | Comparing a snapshot with itself yields no events, given a diff of identical text with no added or removed parts. |
| Detector.AppendedHeadingRules | scripts/website-scraper/index.js:141-158 | Appending one unseen heading makes the new-headings list exactly that heading and the removed list empty. The heading rules then give one High `new_sections` event naming just it, and no `removed_sections`. |
| Detector.DetectAppendedHeading | scripts/website-scraper/index.js:141-158 | Appending one unseen heading gives a first event `new_sections` naming just it, High, and no `removed_sections`. |
| Detector.PricingLinkIsFeature | scripts/website-scraper/index.js:179-184 | Link text "Check our Pricing page" passes the case-insensitive keyword filter. |
| Detector.ContactLinkIsNotFeature | scripts/website-scraper/index.js:179-184 | Link text "Contact us" does not pass the keyword filter. |
| Detector.DetectNewFeatureScenario | scripts/website-scraper/index.js:133-195 | The page gains the heading "New Feature", over 500 added characters and its first link, "New Feature". It reports exactly new_sections (High), content_change (High) and new_links (Medium), in that order. |
| Detector.ScenarioContent | scripts/website-scraper/index.js:165-172 | More than 500 added characters give exactly one `content_change`, High. |
| Detector.ScenarioHeadings | scripts/website-scraper/index.js:141-158 | Adding the heading "New Feature" gives one `new_sections` event naming it, and no removed sections. |
| Detector.ScenarioLinks | scripts/website-scraper/index.js:176-192 | A first link "New Feature" is significant and gives one `new_links` event naming it. |
| Fetcher.RetryFrom | scripts/website-scraper/index.js:79-98 | Starting at attempt i, the outcome is success iff some remaining attempt succeeds, with the first success's body. Otherwise it is a failure carrying the last attempt's error, with every attempt failed. |
| Fetcher.FetchOutcome | scripts/website-scraper/index.js:78-99 | No attempt at all (the function returns `undefined`) exactly when `retries` is not positive. |
| Fetcher.FetchPage | scripts/website-scraper/index.js:78-99 | The loop's result is the retry policy's outcome. It makes at most `retries` attempts and stops at the first success. It sleeps 2000·(j+1) ms after each failed attempt j except the last. On failure it rethrows the last attempt's error. |
| Fetcher.FetchOutcomeFailed | scripts/website-scraper/index.js:88-95 | Fetching fails iff all `retries` attempts fail, and then carries the last attempt's error. |
| Fetcher.FetchOutcomeFetched | scripts/website-scraper/index.js:79-92 | Fetching returns the body of the first successful attempt. |
| Orchestrator.SnapshotFileName | scripts/website-scraper/index.js:104 | The name is the competitor id, "_", the page name's words joined by "_" (with one more "_" for leading or trailing whitespace), then ".json". It ends in ".json", and nothing after the id is whitespace. |
| Orchestrator.ShouldLogDetected | scripts/website-scraper/index.js:225 | A page's changes are logged iff it had a previous snapshot and something changed. Logged changes are never `new_snapshot`. |
| Orchestrator.Payload | scripts/website-scraper/index.js:236-245 | The payload has type "website_change" and carries the date, competitor, page and change type. Missing old content becomes "". Missing or empty new content becomes the description. Missing significance becomes Low. |
| Orchestrator.ChangeEntries | scripts/website-scraper/index.js:228-233 | One results entry per change, in order: competitor and page, then the change's fields. |
| Orchestrator.Payloads | scripts/website-scraper/index.js:236-245 | One webhook payload per change, in order. |
| Orchestrator.LoadSnapshot | scripts/website-scraper/index.js:103-114 | There is a previous snapshot exactly when a file of that name exists, and it is the snapshot stored there. |
| Orchestrator.Visit | scripts/website-scraper/index.js:223-255 | A fetched page's snapshot is saved under its file name. When the gate is open, one entry and one webhook payload per change are appended, in order. When it is closed, nothing is logged and no webhook is sent. |
| Orchestrator.ScrapeCompetitor | scripts/website-scraper/index.js:216-270 | The inner loop processes one competitor's pages, in order, as the page step prescribes. |
| Orchestrator.ScrapeCompetitors | scripts/website-scraper/index.js:207-284 | The nested loops give the run over every page of every competitor, in order. The returned count is the summary filter's count. |
| Orchestrator.VisitKeepsInvariant | scripts/website-scraper/index.js:225-255 | A visit whose logged changes are never `new_snapshot` raises the summary count and the number of webhook calls by the same amount, the number of logged changes, so it keeps the run invariant. |
| Orchestrator.PageStepKeepsInvariant | scripts/website-scraper/index.js:219-266 | Every page, fetched or failed, keeps the run invariant. |
| Orchestrator.RunPagesKeepsInvariant | scripts/website-scraper/index.js:216-270 | A competitor's pages keep the run invariant. |
| Orchestrator.RunCompetitorsInvariant | scripts/website-scraper/index.js:213-275 | A run never records a `new_snapshot` entry. The summary count equals the number of webhook calls. |
| Orchestrator.PageStepOnFailure | scripts/website-scraper/index.js:257-266 | A page whose three attempts all fail adds one error entry with the last error's message. Webhooks and the snapshot directory are unchanged. |
| Orchestrator.PageStepSavesSnapshot | scripts/website-scraper/index.js:219-255 | A fetched page's snapshot is saved under its file name, whatever was detected. Other files are untouched. |
| Orchestrator.PageStepFirstVisit | scripts/website-scraper/index.js:219-255 | A page without a saved snapshot logs nothing and sends no webhook, but is saved. |
| Sheets.IndexOf | scripts/utils/sheets-client.js:67 | `indexOf` returns the first position of the value, or -1 exactly when it is absent. |
| Sheets.FindRow | scripts/utils/sheets-client.js:62-76 | Null for an empty table or an unknown column. Otherwise it returns the first data row (from row 1) whose cell under the column equals the value, with `rowIndex` = i+1, the row and the header row. Null iff no data row matches. |
| Sheets.TruncatedCell | scripts/utils/sheets-client.js:102-103 | A content cell is a prefix of the content: all of it up to 500 characters, exactly 500 characters of longer content, and "" for missing content. |
| Sheets.WebsiteChangeRow | scripts/utils/sheets-client.js:97-105 | 7 cells: date, competitor, page, type, the cut old and new content, significance. |
| Sheets.FindingRow | scripts/utils/sheets-client.js:113-122 | 8 cells: date, the six fields in order, and "No". |
| Sheets.JobPostingRow | scripts/utils/sheets-client.js:130-137 | 6 cells: date and the five fields in order. |
| Sheets.SheetsClient.AppendRows | scripts/utils/sheets-client.js:36-46 | The rows are appended as given to range `sheetName!A:Z` of the client's spreadsheet, with value input option USER_ENTERED and insert option INSERT_ROWS. |
| Sheets.SheetsClient.AppendRow | scripts/utils/sheets-client.js:21-31 | Appending a row is the same request as appending the one-row table `[values]`. |
| Sheets.SheetsClient.LogWebsiteChange | scripts/utils/sheets-client.js:95-106 | One 7-cell row is appended to range "Website Changes!A:Z", with the content cells cut to 500 characters, as USER_ENTERED values inserted as new rows (INSERT_ROWS). |
| Sheets.SheetsClient.LogFinding | scripts/utils/sheets-client.js:111-123 | One finding row is appended to range "Findings!A:Z", as USER_ENTERED values inserted as new rows (INSERT_ROWS). |
| Sheets.SheetsClient.LogJobPosting | scripts/utils/sheets-client.js:128-138 | One job-posting row is appended to range "Job Postings!A:Z", as USER_ENTERED values inserted as new rows (INSERT_ROWS). |

## Left out

- HTTP requests, webhook POSTs and the Google Sheets API calls are not modelled. The fetcher's attempts are a function of URL and attempt number. A webhook call is the payload recorded in the run state. A sheet operation is the append request value.
- `sendToWebhook` skips sending when no webhook URL is configured and swallows its own errors. The model records every payload the loop hands to it.
- HTML parsing and the removal of script, style, nav, header, footer and noscript elements are not modelled. The extractor starts from the parsed body text, anchors and headings.
- Snapshots are not read from or written to disk, and are not serialised as JSON. The snapshot directory is a map keyed by file name. A missing or unreadable file is treated as no previous snapshot, and a failing save is not modelled.
- Reading `competitors.json` and writing the results artifact are not modelled. The competitor list is an input.
- Console logging is not modelled.
- `updateCell`, `readSheet` and the client constructor's credentials are not modelled. `findRow` takes the table that `readSheet` would return.
- Detector.DetectChanges: `diffLines` is a parameter. Its only assumption is used in the self-comparison lemma: identical texts have no added or removed parts.
- Fetcher.FetchPage: the sleeps are returned as a list of delays, not performed. The 500 ms and 2000 ms pacing sleeps of the page loop are not modelled. `retries` is an integer; fractional values are not modelled.
- Orchestrator.ScrapeCompetitors: every webhook payload of a run carries one date, which the caller supplies. `scrapeCompetitors` reads the clock for each call.
- Text.ToLowerAscii: only ASCII letters are lowercased, unlike `toLowerCase` on other letters.
- Text.Prefix: lengths count characters, not UTF-16 code units, so strings outside the Basic Multilingual Plane are cut at a different place.
- Detector.ContentChangeRule: the 100- and 500-character thresholds and the counts in the description use `.length`, which counts UTF-16 code units; the model counts characters. Text of 60 emoji has length 120 in JavaScript, so it passes the 100 threshold there, but has length 60 in the model.
- Detector.DetectContentChange: states the thresholds, the 300-character excerpts and the two counts in its description in characters, not in the UTF-16 code units `.length` and `substring` use, for the reason given under Detector.ContentChangeRule.
- Sheets.TruncatedCell: `substring(0, 500)` cuts after 500 UTF-16 code units; the model keeps 500 characters. A cell of emoji keeps 250 of them in JavaScript but 500 in the model.
