# Coupang product crawler — a Dafny model

This project models the core of the Coupang product crawler in
`Desktop/aws/coupang-crawler-project/crawler.py`. The crawler reads an input
spreadsheet of product URLs and visits the rows from a start index to an end
index in batches. For every row it loads the page, checks whether it is
blocked and extracts a product record: the name, the price, the original
price, the coupon flag and coupon price, and the AppleCare price. Each
batch's records are appended to the day's result file. A checkpoint
(`crawler_status.json`) is written before each batch, after each finished
batch and on a block, and a later run resumes from it. After a complete run
a validator picks out the error rows of the result file, crawls their URLs
again and merges the records that were fixed back into the file.

The model has eight modules, one per part of the program:

- `Common`: cell values (`None`/NaN, integers, strings), the result columns,
  records as maps from columns to values, and tables as a column set with
  rows padded to it, the way pandas builds and concatenates data frames.
- `Text`: the string operations the extractors rely on. These are
  `str.strip`, `str.replace`, `str.lower` (ASCII only), substring search,
  the first run of ASCII digits (what `re.search(r'(\d+)')` finds in text
  whose digits are ASCII), and the file-name
  sanitiser for blocked pages.
- `Config`: `ConfigManager` as a class, with the checkpoint file as a field
  that `save_status` overwrites and `load_status` reads. It also holds the
  settings-derived choices (wait ranges, user agent, browser per batch,
  batch size) and the resume rule of `process_urls`.
- `Stealth`: the browser-context settings, including the proxy decision and
  its fall-back to a direct connection.
- `Extract`: `DataExtractor`. This covers block detection, the product
  name, the price, coupon and AppleCare extraction (including the
  AppleCare regular expression), and the three-attempt retry loop of
  `extract_product_info`.
- `Session`: one URL visited with the browser. This is the `goto` retry
  loop, block detection on the loaded page, extraction, the error record of
  the exception handler, and the variant of the same visit that the
  re-crawl uses.
- `Crawler`: `CoupangCrawler` as a class. Its result file, its sleeps and
  the working-directory status file are fields. `process_urls`,
  `_process_batch` and `_save_results_to_single_file` are methods, each
  proved against a specification function. The lemmas cover resumption,
  coverage of the window and append-only saving.
- `Validator`: `ResultValidator` as a class whose statistics are a field.
  The model covers how error rows are identified, the batched re-crawl, and
  the merge of `_update_dataframe`.

The browser, the clock and the random waits are parameters:

- A `Visit` scripts what happens to one URL. It says whether the context
  set-up raises, what each of the three `page.goto` attempts answers, what
  the page shows to each selector, how each extraction attempt ends, and
  the clock readings.
- A sleep is recorded as a `Pause` token (URL wait, batch wait, or a
  backoff of a given number of seconds), not as a duration.

Two behaviours of the code differ from what it appears to intend, and the model follows the code:

- The "Page load failed after retries" row of `_process_batch` cannot be
  reached, because the `goto` loop only leaves by `break` on success or by
  `raise`. A page that never loads gets the exception handler's error row.
- A product-name selector that matches several elements yields no name,
  because Playwright's `text_content()` is strict and raises.

## Model

| member | source | states |
|---|---|---|
| Common.Pad | Desktop/aws/coupang-crawler-project/crawler.py:1267-1282 | a record placed in a data frame has exactly the frame's columns and keeps each of its own cells that the frame has |
| Common.PadPad | Desktop/aws/coupang-crawler-project/crawler.py:1267-1278 | widening a row to some columns and then to more is widening it to the larger set at once |
| Common.PadAllRows | Desktop/aws/coupang-crawler-project/crawler.py:1267-1282 | padding a list of rows pads each row in place |
| Common.KeysOfCovers | Desktop/aws/coupang-crawler-project/crawler.py:1279-1282 | the columns of `pd.DataFrame(records)` cover every record's keys, and each column comes from some record |
| Common.FromRecords | Desktop/aws/coupang-crawler-project/crawler.py:1279-1282 | a data frame built from records has one row per record and the union of their keys as columns |
| Common.FromRecordsRows | Desktop/aws/coupang-crawler-project/crawler.py:1279-1282 | that data frame is well formed, and row i is record i padded to the columns |
| Common.Concat | Desktop/aws/coupang-crawler-project/crawler.py:1267-1278 | `pd.concat` has the union of the columns and the rows of both frames |
| Common.ConcatRows | Desktop/aws/coupang-crawler-project/crawler.py:1267-1278 | the concatenation is well formed: the old rows come first and the new rows follow, each padded to the union of the columns |
| Common.Cell | Desktop/aws/coupang-crawler-project/crawler.py:1520-1525 | reading a column that a record lacks gives None |
| Text.StripLeftShape | Desktop/aws/coupang-crawler-project/crawler.py:671-674 | left strip removes exactly the leading whitespace: it returns a suffix that starts with a non-space, and everything before that suffix is whitespace |
| Text.StripRightShape | Desktop/aws/coupang-crawler-project/crawler.py:671-674 | right strip removes exactly the trailing whitespace: it returns a prefix that ends with a non-space, and everything after that prefix is whitespace |
| Text.Remove | Desktop/aws/coupang-crawler-project/crawler.py:673 | `replace(c, "")` leaves no c, and leaves a string without c unchanged |
| Text.RemoveKeepsOthers | Desktop/aws/coupang-crawler-project/crawler.py:673 | `replace(c, "")` keeps every other character as many times as before |
| Text.LeadingDigits | Desktop/aws/coupang-crawler-project/crawler.py:674 | the maximal prefix of digits: all digits, and followed by a non-digit or the end |
| Text.FirstNumber | Desktop/aws/coupang-crawler-project/crawler.py:674-676 | the search for a run of ASCII digits finds nothing exactly when the text has no ASCII digit |
| Text.FirstNumberIsFirstRun | Desktop/aws/coupang-crawler-project/crawler.py:674-676 | the number found is the value of the first maximal run of ASCII digits |
| Text.FirstRunUnique | Desktop/aws/coupang-crawler-project/crawler.py:674 | a text has only one first maximal run of digits |
| Text.Lower | Desktop/aws/coupang-crawler-project/crawler.py:511 | lower-casing keeps the length and maps each character on its own |
| Text.ContainsComplete | Desktop/aws/coupang-crawler-project/crawler.py:511 | the `in` test finds every occurrence of the pattern |
| Text.ContainsSound | Desktop/aws/coupang-crawler-project/crawler.py:511 | the `in` test succeeds only when the pattern occurs at some position |
| Text.NatToString | Desktop/aws/coupang-crawler-project/crawler.py:1117-1118 | the decimal form of a status code is a non-empty run of digits |
| Text.NatToStringValue | Desktop/aws/coupang-crawler-project/crawler.py:1117-1118 | reading that decimal form back gives the number |
| Text.SanitizeForFileName | Desktop/aws/coupang-crawler-project/crawler.py:1182 | the first 50 characters of the URL, each one kept when it is a letter, a digit, `_` or `-`, and replaced by `_` otherwise |
| Text.SanitizeIdempotent | Desktop/aws/coupang-crawler-project/crawler.py:1182 | a sanitised name holds only safe characters, and sanitising it again changes nothing |
| Config.WaitRange | Desktop/aws/coupang-crawler-project/crawler.py:149-168 | the configured min and max wait when both are set; otherwise 10–40 seconds for URLs and 600–900 seconds for batches |
| Config.UserAgent | Desktop/aws/coupang-crawler-project/crawler.py:170-177 | the configured user agent, or one from the built-in list when it is absent or "auto" |
| Config.BrowserType | Desktop/aws/coupang-crawler-project/crawler.py:179-182 | a browser exists exactly when the list is non-empty, and it is one of the listed browsers |
| Config.BrowserRotationPeriodic | Desktop/aws/coupang-crawler-project/crawler.py:179-182 | browsers rotate with period equal to the list's length |
| Config.BatchBrowser | Desktop/aws/coupang-crawler-project/crawler.py:1037-1059 | `_process_batch` always launches the browser for batch index 0 |
| Config.EffectiveBatchSize | Desktop/aws/coupang-crawler-project/crawler.py:828 | a non-zero argument wins; with no argument or 0 the configured `batch_size` is used, and without one the batch size is 15 |
| Config.ResolveStart | Desktop/aws/coupang-crawler-project/crawler.py:868-885 | the requested start, unless auto-restart finds a checkpoint for the same file: then the blocked URL's index if one was saved, else the larger of the saved and requested indices |
| Config.ResolveStartMonotone | Desktop/aws/coupang-crawler-project/crawler.py:868-885 | without a saved blocked index, resumption never moves before the requested start |
| Config.ConfigManager.constructor | Desktop/aws/coupang-crawler-project/crawler.py:72-79 | the manager holds the settings, the selectors and the status file it found, and has saved nothing yet |
| Config.ConfigManager.SaveStatus | Desktop/aws/coupang-crawler-project/crawler.py:113-135 | the status file now holds exactly the given checkpoint, and the save is recorded |
| Config.ConfigManager.LoadStatus | Desktop/aws/coupang-crawler-project/crawler.py:137-147 | returns the content of the status file, or None when there is none |
| Stealth.SetupContextSettings | Desktop/aws/coupang-crawler-project/crawler.py:404-460 | a proxy is used exactly when it is enabled with a server, user name and password and the probe succeeds, and its server gets the `http://` prefix; the viewport is the configured one, or 1920x1080 when none is configured; the user agent is the configured one |
| Stealth.ProxyFailureFallsBackToDirect | Desktop/aws/coupang-crawler-project/crawler.py:421-449 | a failed proxy probe gives a direct connection with the same viewport and user agent |
| Extract.SelectorList | Desktop/aws/coupang-crawler-project/crawler.py:516-521 | a selector key missing from selectors.json falls back to the built-in list |
| Extract.MissingCount | Desktop/aws/coupang-crawler-project/crawler.py:523-529 | the counting loop never counts more than the number of indicators |
| Extract.MissingCountIsCardinality | Desktop/aws/coupang-crawler-project/crawler.py:523-529 | the counting loop counts exactly the indicators that match nothing |
| Extract.DetectBlockIff | Desktop/aws/coupang-crawler-project/crawler.py:489-548 | blocked exactly on status 403, 429 or 503, or, when the page source is readable, on a block pattern, on at least half of the indicators being absent, or on a suspicious title |
| Extract.EmptyIndicatorsAlwaysBlock | Desktop/aws/coupang-crawler-project/crawler.py:532 | with an empty indicator list, every readable page counts as blocked |
| Extract.RemoveAppend | Desktop/aws/coupang-crawler-project/crawler.py:673 | removing a character distributes over concatenation |
| Extract.FirstNumberSkip | Desktop/aws/coupang-crawler-project/crawler.py:674 | a digit-free prefix does not change the first number |
| Extract.LeadingDigitsAppend | Desktop/aws/coupang-crawler-project/crawler.py:674 | a suffix that starts with a non-digit does not change the leading digits |
| Extract.FirstNumberAppend | Desktop/aws/coupang-crawler-project/crawler.py:674 | a digit-free suffix does not change the first number |
| Extract.CleanNumberStripLeft | Desktop/aws/coupang-crawler-project/crawler.py:671-674 | leading whitespace does not change the cleaned number |
| Extract.CleanNumberStripRight | Desktop/aws/coupang-crawler-project/crawler.py:671-674 | trailing whitespace does not change the cleaned number |
| Extract.FirstNumberStripLeft | Desktop/aws/coupang-crawler-project/crawler.py:673-674 | the final strip does not change the first number (leading side) |
| Extract.FirstNumberStripRight | Desktop/aws/coupang-crawler-project/crawler.py:673-674 | the final strip does not change the first number (trailing side) |
| Extract.ParsePriceReadsFirstRun | Desktop/aws/coupang-crawler-project/crawler.py:671-676 | the parsed price is the first run of digits once "원" and "," are removed; both strips are irrelevant |
| Extract.RemoveNoDigits | Desktop/aws/coupang-crawler-project/crawler.py:673 | removing a non-digit character neither creates nor destroys digits |
| Extract.ParsePriceSomeIffDigit | Desktop/aws/coupang-crawler-project/crawler.py:671-676 | a price text yields a number exactly when it contains a digit |
| Extract.ScanPrice | Desktop/aws/coupang-crawler-project/crawler.py:656-677 | with no selectors, no price is found |
| Extract.ScanPriceSomeIff | Desktop/aws/coupang-crawler-project/crawler.py:656-677 | `extract_price_safely` finds a price exactly when some selector matches and its first match holds a digit |
| Extract.ScanPriceFirstHit | Desktop/aws/coupang-crawler-project/crawler.py:656-677 | the price comes from the first such selector in list order, read from its first match |
| Extract.NameBySelectors | Desktop/aws/coupang-crawler-project/crawler.py:610-626 | with no selectors, no name is found |
| Extract.NameBySelectorsSomeIff | Desktop/aws/coupang-crawler-project/crawler.py:610-626 | the name selectors yield a name exactly when one of them matches exactly one element |
| Extract.NameBySelectorsFirstHit | Desktop/aws/coupang-crawler-project/crawler.py:610-626 | the name is the stripped text of the first such selector |
| Extract.LongestText | Desktop/aws/coupang-crawler-project/crawler.py:628-642 | the h2 scan returns "" or one of the stripped texts, and no stripped text is longer than the result |
| Extract.LongestTextIsFirst | Desktop/aws/coupang-crawler-project/crawler.py:636 | among equally long texts the first one wins, because only a strictly longer text replaces the current one |
| Extract.LongestH2 | Desktop/aws/coupang-crawler-project/crawler.py:628-642 | the loop over the h2 texts returns the longest stripped text |
| Extract.ProductName | Desktop/aws/coupang-crawler-project/crawler.py:607-650 | the name of the first selector with exactly one match; when no selector has exactly one match, the longest text among the `h2` matches, or "NA" when that is empty |
| Extract.CouponShown | Desktop/aws/coupang-crawler-project/crawler.py:680-701 | a coupon is shown exactly when a coupon selector matches or the page source holds the coupon markup; the check raises only when no selector matches and the source is unreadable |
| Extract.LazyAmountSound | Desktop/aws/coupang-crawler-project/crawler.py:775-778 | an amount found by the lazy gap lies after a stretch without '<' or '>' |
| Extract.AppleCareSearchSound | Desktop/aws/coupang-crawler-project/crawler.py:775-778 | a reported AppleCare price is a real match: "AppleCare" (any case), a gap without '<' or '>', then a comma-grouped amount ending in 원; no earlier position starts a match |
| Extract.AcPriceValue | Desktop/aws/coupang-crawler-project/crawler.py:762-786 | the AppleCare price is a number or "NA" |
| Extract.LazyAmountComplete | Desktop/aws/coupang-crawler-project/crawler.py:775-778 | the lazy gap search finds an amount whenever one follows without a '<' or '>' in between |
| Extract.AppleCareSearchComplete | Desktop/aws/coupang-crawler-project/crawler.py:775-778 | whenever the text holds "AppleCare" followed by such a gap and a grouped amount, the search reports a price |
| Extract.PriceInfo | Desktop/aws/coupang-crawler-project/crawler.py:652-793 | the price record has the five price columns, COUPON is 0 or 1 and is 1 exactly when a coupon price was read, each price is a number or "NA", and a numeric PRICE has a numeric ORIGIN_PRICE |
| Extract.PriceInfoCoupon | Desktop/aws/coupang-crawler-project/crawler.py:738-793 | COUPON is 1 exactly when the coupon badge is shown and a coupon price is read, and then COUPON_PRICE is that price; no badge gives COUPON 0 and a None COUPON_PRICE; when the badge check raises because the page source cannot be read, every price cell is "NA" and COUPON is 0; otherwise AC_PRICE is the AppleCare scan |
| Extract.PriceInfoFallbacks | Desktop/aws/coupang-crawler-project/crawler.py:704-735 | whenever the coupon check answers, PRICE is the price scan, and ORIGIN_PRICE is its own scan or, failing that, PRICE |
| Extract.CouponDemotedWithoutPrice | Desktop/aws/coupang-crawler-project/crawler.py:738-759 | a coupon badge without a readable coupon price is reported as no coupon, with no coupon price |
| Extract.ExtractedFields | Desktop/aws/coupang-crawler-project/crawler.py:561-589 | one extraction pass writes exactly the six field columns |
| Extract.BaseRecord | Desktop/aws/coupang-crawler-project/crawler.py:552-556 | a record starts with URL and ORIGINAL_INDEX, plus PROD_ID when the input has it |
| Extract.WithDefaults | Desktop/aws/coupang-crawler-project/crawler.py:596-605 | `setdefault` adds the six field columns and keeps every cell already written |
| Extract.Backoffs | Desktop/aws/coupang-crawler-project/crawler.py:586-588 | after the k-th failure the retry loop sleeps 5·k seconds |
| Extract.ExtractOutcome | Desktop/aws/coupang-crawler-project/crawler.py:550-605 | the record always has the base cells, the six fields and the extraction time; the loop sleeps at most twice, 5 and then 10 seconds |
| Extract.ExtractOutcomeShape | Desktop/aws/coupang-crawler-project/crawler.py:550-605 | the record keeps the base cells and has the time; it carries ERROR exactly when all three attempts failed, and DATE exactly when it has no ERROR |
| Extract.CompletedRecordShape | Desktop/aws/coupang-crawler-project/crawler.py:578-581 | a completed attempt's record has the base cells, the time and the date, and no ERROR |
| Extract.FailedRecordShape | Desktop/aws/coupang-crawler-project/crawler.py:596-605 | an exhausted record has the base cells, the time and an ERROR, and no DATE |
| Extract.CompletedExtraction | Desktop/aws/coupang-crawler-project/crawler.py:561-581 | a successful attempt yields the extracted fields and today's date; when attempt k is the first to complete, the pauses are the k-1 backoffs before it |
| Extract.ExhaustedExtraction | Desktop/aws/coupang-crawler-project/crawler.py:583-605 | after three failures the ERROR is the last error, after sleeps of 5 and 10 seconds; the fields are the ones an earlier attempt wrote, or the defaults (COUPON 0, the rest None) |
| Extract.ExtractProductInfo | Desktop/aws/coupang-crawler-project/crawler.py:550-605 | `extract_product_info` returns the retry loop's outcome over the base record and one extraction pass |
| Extract.RetryExtraction | Desktop/aws/coupang-crawler-project/crawler.py:561-605 | the retry loop's record and sleeps are those of the outcome function |
| Session.NavError | Desktop/aws/coupang-crawler-project/crawler.py:1113-1118 | the message for a failed load: the status code, or "No response", after the load-failure prefix; or the error `goto` raised |
| Session.NavOutcome | Desktop/aws/coupang-crawler-project/crawler.py:1102-1136 | the page loads exactly when some attempt answers with a 2xx status (`response.ok`); the first such attempt wins, after one 5·k-second backoff for each failed attempt before it; after three failures it gives up with the third attempt's error and backoffs of 5 and 10 seconds |
| Session.Navigate | Desktop/aws/coupang-crawler-project/crawler.py:1102-1136 | the `goto` retry loop ends as the outcome function says |
| Session.LoadedPageStatusRuleDead | Desktop/aws/coupang-crawler-project/crawler.py:492-494 | a loaded page never has a blocking status, so block detection on it depends only on the page |
| Session.ErrorRecord | Desktop/aws/coupang-crawler-project/crawler.py:1208-1231 | the exception handler's row has the base cells, the given PROD_ID, ERROR, the extraction time, "NA" for name, prices, COUPON_PRICE and AC_PRICE, and COUPON 0 |
| Session.LoadedOutcome | Desktop/aws/coupang-crawler-project/crawler.py:1169-1206 | once the page has loaded, the visit does not raise |
| Session.LoadedOutcomeCases | Desktop/aws/coupang-crawler-project/crawler.py:1169-1206 | a blocked page stops the visit; otherwise the extracted record is returned, followed by the URL wait when one is due |
| Session.ExtractedShape | Desktop/aws/coupang-crawler-project/crawler.py:1194-1197 | an extracted record holds URL, ORIGINAL_INDEX, the fields and the time, and a string ERROR exactly when all attempts failed |
| Session.ExhaustedErrorIsString | Desktop/aws/coupang-crawler-project/crawler.py:596-605 | an ERROR cell of the extraction is always a string |
| Session.GotExtracted | Desktop/aws/coupang-crawler-project/crawler.py:1094-1206 | a visit that yields a record had no set-up error and a loaded page; its sleeps are the backoffs, then the extraction's, then the URL wait |
| Session.AppendedRecordShape | Desktop/aws/coupang-crawler-project/crawler.py:1094-1231 | every appended record has URL, ORIGINAL_INDEX, the fields and the time; it has a string ERROR exactly when set-up raised, the page never loaded or all extractions failed |
| Session.VisitPauses | Desktop/aws/coupang-crawler-project/crawler.py:1201-1206 | a loaded visit that is not blocked sleeps at most five times, and ends with the URL wait exactly when another URL of the batch follows |
| Session.VisitPage | Desktop/aws/coupang-crawler-project/crawler.py:1094-1206 | visiting a URL ends as the specification function says |
| Session.VisitLoaded | Desktop/aws/coupang-crawler-project/crawler.py:1169-1206 | the part after the page loads ends as the specification function says |
| Session.ExtractVisit | Desktop/aws/coupang-crawler-project/crawler.py:1194-1197 | extraction on the visited page ends as the specification function says |
| Session.VisitRecord | Desktop/aws/coupang-crawler-project/crawler.py:1094-1231 | one pass of `_process_batch`'s loop body appends what the specification function says, or stops on a block |
| Session.RecrawlFailure | Desktop/aws/coupang-crawler-project/crawler.py:1520-1525 | the re-crawl's handler fails exactly when no error row has that ORIGINAL_INDEX, and otherwise copies the error row with "재수집 실패: " and the message as ERROR |
| Session.RecrawlAgreesWithCrawl | Desktop/aws/coupang-crawler-project/crawler.py:1475-1525 | a re-crawl returns the crawl's record when the crawl would succeed, and the error row marked "차단 감지됨" when the crawl would see a block |
| Session.RecrawledRecordIndex | Desktop/aws/coupang-crawler-project/crawler.py:1475-1525 | a re-crawled record keeps the ORIGINAL_INDEX it was crawled under, and the lookup fails only when no error row has that index |
| Session.RecrawlRecord | Desktop/aws/coupang-crawler-project/crawler.py:1475-1525 | one pass of the re-crawl's loop body ends as the specification function says |
| Validator.ErrorEntries | Desktop/aws/coupang-crawler-project/crawler.py:1379-1407 | no more error entries than rows |
| Validator.ErrorEntriesSound | Desktop/aws/coupang-crawler-project/crawler.py:1379-1407 | each selected entry is an error row (ERROR set, or "NA" in PRICE, ORIGIN_PRICE or COUPANG_PROD_NAME) under its own label, and the labels increase |
| Validator.ErrorEntriesComplete | Desktop/aws/coupang-crawler-project/crawler.py:1379-1407 | every error row of the file is selected |
| Validator.NoErrorEntriesIff | Desktop/aws/coupang-crawler-project/crawler.py:1379-1407 | the selection is empty exactly when no row is an error row |
| Validator.Lookup | Desktop/aws/coupang-crawler-project/crawler.py:1523 | a found error row has the ORIGINAL_INDEX looked for |
| Validator.LookupFinds | Desktop/aws/coupang-crawler-project/crawler.py:1523 | the lookup finds a row exactly when some error row's ORIGINAL_INDEX equals the index and is not NaN |
| Validator.LookupFailsOnlyOnNull | Desktop/aws/coupang-crawler-project/crawler.py:1523 | looking up an error row's own index fails only when that index is NaN |
| Validator.EntryCrawlerFaithful | Desktop/aws/coupang-crawler-project/crawler.py:1457-1525 | the re-crawl's loop body keeps each row's ORIGINAL_INDEX, and its lookup fails only without an error row |
| Validator.CrawlersFaithful | Desktop/aws/coupang-crawler-project/crawler.py:1457-1525 | this holds with or without a PROD_ID column |
| Validator.RecrawlSlice | Desktop/aws/coupang-crawler-project/crawler.py:1457-1525 | a batch that does not abort yields one record per row |
| Validator.RecrawlFrom | Desktop/aws/coupang-crawler-project/crawler.py:1430-1551 | a re-crawl that does not abort yields one record per remaining error row |
| Validator.RecordsMatchAppend | Desktop/aws/coupang-crawler-project/crawler.py:1545 | records matching consecutive stretches of error rows match together |
| Validator.RecrawlSliceIndexed | Desktop/aws/coupang-crawler-project/crawler.py:1457-1525 | the k-th record of a batch has the ORIGINAL_INDEX of the batch's k-th error row |
| Validator.RecrawlFromStep | Desktop/aws/coupang-crawler-project/crawler.py:1430-1551 | a successful re-crawl is its first batch's records followed by the rest's |
| Validator.RecrawlOneRecordPerError | Desktop/aws/coupang-crawler-project/crawler.py:1430-1551 | a successful re-crawl yields exactly one record per error row, in order, each with that row's ORIGINAL_INDEX |
| Validator.SliceAbortNeedsNullIndex | Desktop/aws/coupang-crawler-project/crawler.py:1520-1525 | a batch aborts only on an error row whose ORIGINAL_INDEX is NaN |
| Validator.RecrawlAbortCauses | Desktop/aws/coupang-crawler-project/crawler.py:1438-1525 | the re-crawl aborts only when the browser cannot start or some error row has a NaN ORIGINAL_INDEX |
| Validator.RecrawlErrorUrls | Desktop/aws/coupang-crawler-project/crawler.py:1409-1554 | `_recrawl_error_urls` returns what the specification function says |
| Validator.JoinedJoined | Desktop/aws/coupang-crawler-project/crawler.py:1545 | collecting results twice is collecting the concatenation |
| Validator.RecrawlSliceStep | Desktop/aws/coupang-crawler-project/crawler.py:1457-1525 | one row either aborts the batch or puts its record before the rest's |
| Validator.RecrawlSliceLoop | Desktop/aws/coupang-crawler-project/crawler.py:1457-1545 | the inner loop over a batch returns what the specification function says |
| Validator.Overwrite | Desktop/aws/coupang-crawler-project/crawler.py:1575-1581 | overwriting a row keeps its columns |
| Validator.MergeRecord | Desktop/aws/coupang-crawler-project/crawler.py:1565-1587 | one fixed record overwrites every row it targets, cell by cell for the file's columns, and leaves the other rows alone |
| Validator.MergeKeepsShape | Desktop/aws/coupang-crawler-project/crawler.py:1556-1589 | the merge keeps the number of rows and each row's columns |
| Validator.OverwriteKeepsIndex | Desktop/aws/coupang-crawler-project/crawler.py:1575-1581 | an overwrite keeps the row's ORIGINAL_INDEX |
| Validator.MergeLeavesUntargetedRow | Desktop/aws/coupang-crawler-project/crawler.py:1556-1589 | a row that no successful record names by ORIGINAL_INDEX is left unchanged |
| Validator.FailedRecordsChangeNothing | Desktop/aws/coupang-crawler-project/crawler.py:1571-1583 | records whose re-crawl failed change nothing |
| Validator.MergeKeepsIndex | Desktop/aws/coupang-crawler-project/crawler.py:1556-1589 | the merge keeps every row's ORIGINAL_INDEX |
| Validator.MergeClearsError | Desktop/aws/coupang-crawler-project/crawler.py:1580-1581 | a row that a successful record targets ends the merge without an ERROR |
| Validator.MergedTableValid | Desktop/aws/coupang-crawler-project/crawler.py:1556-1589 | the merged table has the same columns and rows, and stays well formed |
| Validator.UpdateDataframe | Desktop/aws/coupang-crawler-project/crawler.py:1556-1589 | `_update_dataframe` returns the merge of the fixed records into the table |
| Validator.CountFixed | Desktop/aws/coupang-crawler-project/crawler.py:1357-1359 | no more fixed records than records |
| Validator.ValidateWith | Desktop/aws/coupang-crawler-project/crawler.py:1317-1377 | "no file" exactly when the file is missing, and then the statistics are unchanged; "no errors" exactly when no row is an error row, and then the file is returned unchanged |
| Validator.RecrawledRecords | Desktop/aws/coupang-crawler-project/crawler.py:1354 | a completed re-crawl has one record per error row |
| Validator.ValidatedShape | Desktop/aws/coupang-crawler-project/crawler.py:1354-1366 | a validated table keeps the columns and the row count and stays well formed; the statistics count rows, errors and re-crawled rows, with fixed + remaining = re-crawled |
| Validator.ValidatedKeepsUntouchedRows | Desktop/aws/coupang-crawler-project/crawler.py:1362 | a row that no successful record targets is unchanged in the validated table |
| Validator.ValidatedClearsFixedErrors | Desktop/aws/coupang-crawler-project/crawler.py:1354-1366 | an error row whose re-crawl succeeded has no ERROR in the validated table |
| Validator.ResultValidator.constructor | Desktop/aws/coupang-crawler-project/crawler.py:1300-1315 | a fresh validator's statistics are all zero |
| Validator.ResultValidator.ValidateAndRecrawl | Desktop/aws/coupang-crawler-project/crawler.py:1317-1377 | `validate_and_recrawl` returns, and leaves in its statistics, what the specification function says for the validator's earlier statistics |
| Crawler.UrlCrawlersIndexed | Desktop/aws/coupang-crawler-project/crawler.py:1078-1231 | every record the loop body appends carries the original index it was crawled under |
| Crawler.BatchFrom | Desktop/aws/coupang-crawler-project/crawler.py:1066-1231 | a batch without a block yields one record per row; a block stops it at the row right after its last record |
| Crawler.BatchRecordsIndexed | Desktop/aws/coupang-crawler-project/crawler.py:1078 | the j-th record of a batch carries original index start + j |
| Crawler.BatchGoesOn | Desktop/aws/coupang-crawler-project/crawler.py:1066-1231 | a crawled URL adds its record and sleeps to the batch so far |
| Crawler.BatchStops | Desktop/aws/coupang-crawler-project/crawler.py:1169-1191 | a blocked URL ends the batch with what it had so far |
| Crawler.BatchEnds | Desktop/aws/coupang-crawler-project/crawler.py:1253 | at the end of the batch nothing is left to add |
| Crawler.BatchBegins | Desktop/aws/coupang-crawler-project/crawler.py:1066 | a batch starts with nothing crawled |
| Crawler.Saved | Desktop/aws/coupang-crawler-project/crawler.py:1255-1291 | saving no records leaves the file unchanged, and saving some leaves a file |
| Crawler.SavedAppends | Desktop/aws/coupang-crawler-project/crawler.py:1255-1291 | `_save_results_to_single_file` only appends its records below the old rows, each padded to the columns |
| Crawler.AppendsTransitive | Desktop/aws/coupang-crawler-project/crawler.py:934-940 | appending twice is appending both lists of records, one after the other |
| Crawler.AppendsKeepsOldRows | Desktop/aws/coupang-crawler-project/crawler.py:934-940 | rows written before two appends survive both, widened |
| Crawler.AppendsHoldsBoth | Desktop/aws/coupang-crawler-project/crawler.py:934-940 | both appends' records follow the old rows in order |
| Crawler.PadRowsTransitive | Desktop/aws/coupang-crawler-project/crawler.py:1267-1278 | rows widened twice equal the first rows widened once to the last columns |
| Crawler.FromRecordsHolds | Desktop/aws/coupang-crawler-project/crawler.py:1279-1282 | a new file holds the records from its first row |
| Crawler.ConcatAppends | Desktop/aws/coupang-crawler-project/crawler.py:1267-1278 | concatenation keeps the old rows, widened, and the records follow them |
| Crawler.HoldsFromWiden | Desktop/aws/coupang-crawler-project/crawler.py:1267-1278 | records stay in place, shifted down, when their rows are widened and moved below others |
| Crawler.HoldsFromKept | Desktop/aws/coupang-crawler-project/crawler.py:1267-1278 | widening the columns in place keeps the records a file holds |
| Crawler.HoldsFromAppend | Desktop/aws/coupang-crawler-project/crawler.py:1267-1278 | consecutive runs of held records are held together |
| Crawler.Flatten | Desktop/aws/coupang-crawler-project/crawler.py:913-940 | no batches have no records |
| Crawler.SaveAll | Desktop/aws/coupang-crawler-project/crawler.py:913-940 | saving no batches leaves the file unchanged |
| Crawler.SaveAllAppends | Desktop/aws/coupang-crawler-project/crawler.py:913-940 | saving batch after batch only appends all the batches' records, in order |
| Crawler.SaveAllAppend | Desktop/aws/coupang-crawler-project/crawler.py:913-940 | saving two lists of batches in turn is saving them all |
| Crawler.FlattenSnoc | Desktop/aws/coupang-crawler-project/crawler.py:913-940 | the records of a list of batches are those of all but the last, then the last's |
| Crawler.ExtendsTransitive | Desktop/aws/coupang-crawler-project/crawler.py:1267-1278 | a file that extends one that extends a third also extends the third |
| Crawler.BatchStep | Desktop/aws/coupang-crawler-project/crawler.py:913-971 | one pass of the batch loop always ends Finished, BlockedAt or LaunchFailed |
| Crawler.BatchStepCases | Desktop/aws/coupang-crawler-project/crawler.py:913-971 | one pass writes the batch's checkpoint first. Then the browser fails to launch, or the batch is blocked and the blocked URL's index is saved, or the records are saved with the next batch's checkpoint and a batch wait unless this was the last batch |
| Crawler.BatchesFrom | Desktop/aws/coupang-crawler-project/crawler.py:913-971 | the batch loop always ends Finished, BlockedAt or LaunchFailed |
| Crawler.PrependPrepend | Desktop/aws/coupang-crawler-project/crawler.py:913-971 | progress made in two stretches is progress made in one |
| Crawler.ThroughStep | Desktop/aws/coupang-crawler-project/crawler.py:913-971 | one more pass moves the split between the passes made and the rest of the loop by one batch |
| Crawler.ThroughThenFrom | Desktop/aws/coupang-crawler-project/crawler.py:913-971 | the first n passes followed by the loop from batch n are the whole loop |
| Crawler.ThroughIsWhole | Desktop/aws/coupang-crawler-project/crawler.py:913-971 | once the first n passes have stopped the loop or covered the window, they are the whole loop |
| Crawler.BatchesStop | Desktop/aws/coupang-crawler-project/crawler.py:913 | the loop does nothing past the end of the window |
| Crawler.RecordsAreBatches | Desktop/aws/coupang-crawler-project/crawler.py:913-940 | the run's records are exactly those its batches saved, in order |
| Crawler.LastSaved | Desktop/aws/coupang-crawler-project/crawler.py:113-135 | after a list of saves the status file holds the last one, or the old content when there were none |
| Crawler.LastSavedAppend | Desktop/aws/coupang-crawler-project/crawler.py:113-135 | two lists of saves in turn leave the last checkpoint of both |
| Crawler.BatchesRecordsIndexed | Desktop/aws/coupang-crawler-project/crawler.py:913-971 | the batch loop appends one record per visited row, in order, each under its original index |
| Crawler.BatchesEnding | Desktop/aws/coupang-crawler-project/crawler.py:913-971 | a finished loop covers the window; a block stops it exactly where its records stop, short of the end; a failed launch stops it short of the end |
| Crawler.CheckpointsJoin | Desktop/aws/coupang-crawler-project/crawler.py:913-963 | two runs of checkpoints, the second starting where the first left off, form one |
| Crawler.StepCheckpoints | Desktop/aws/coupang-crawler-project/crawler.py:913-963 | a pass saves its own batch's checkpoint first and, when the loop goes on, the next batch's checkpoint last |
| Crawler.CheckpointsMonotone | Desktop/aws/coupang-crawler-project/crawler.py:913-963 | every checkpoint names the input file, and last_index never goes backwards |
| Crawler.ResumeContinuesWhereRunStopped | Desktop/aws/coupang-crawler-project/crawler.py:868-963 | the last checkpoint resumes right after the last record written, which after a block is the blocked URL |
| Crawler.Window | Desktop/aws/coupang-crawler-project/crawler.py:888-889 | `iloc[start:end]` is the slice, or empty when the start is at or beyond the end |
| Crawler.EndIndex | Desktop/aws/coupang-crawler-project/crawler.py:862-865 | the end index is the argument clipped to the file's length, or the length when there is no argument |
| Crawler.CrawlSpec | Desktop/aws/coupang-crawler-project/crawler.py:862-971 | a crawl of a file with a URL column ends Finished, BlockedAt or LaunchFailed |
| Crawler.RunCoversWindow | Desktop/aws/coupang-crawler-project/crawler.py:862-971 | the k-th record carries original index start + k; a finished crawl wrote one record per row of the window; a block stops right after the last record; the result file only gains the records, in order |
| Crawler.CrawlEnding | Desktop/aws/coupang-crawler-project/crawler.py:913-971 | how the crawl ends bounds its records, and the result file only gains the crawl's records |
| Crawler.ResumeAfterRun | Desktop/aws/coupang-crawler-project/crawler.py:868-963 | restarting with auto_restart from the checkpoint a crawl leaves starts at the original index right after its last record |
| Crawler.ProcessSpec | Desktop/aws/coupang-crawler-project/crawler.py:840-851 | the run stops before crawling exactly when the input is missing or has no URL column |
| Crawler.RerunAfterCompletionIsEmpty | Desktop/aws/coupang-crawler-project/crawler.py:868-1016 | running again after a completed run finds an empty window: no checkpoint, no record, the same result file and no second validation |
| Crawler.EmptyWindowNeitherResetsNorValidates | Desktop/aws/coupang-crawler-project/crawler.py:978-1016 | an empty window is not a completion: the status file stays as it was and nothing is validated or written |
| Crawler.CompletionResetsAndValidates | Desktop/aws/coupang-crawler-project/crawler.py:978-1016 | a completed run with records resets an existing working-directory status file, and validates the result file exactly when auto_validate is on |
| Crawler.CoupangCrawler.constructor | Desktop/aws/coupang-crawler-project/crawler.py:799-822 | the crawler holds its configuration, the status file and the result file, and has slept nothing yet |
| Crawler.CoupangCrawler.ProcessUrls | Desktop/aws/coupang-crawler-project/crawler.py:824-1025 | `process_urls` leaves the ending, validation, result file, status files and sleeps that the specification function gives |
| Crawler.CoupangCrawler.Complete | Desktop/aws/coupang-crawler-project/crawler.py:978-1016 | the completion step resets the status file and validates as the completion function says |
| Crawler.CoupangCrawler.CrawlInput | Desktop/aws/coupang-crawler-project/crawler.py:862-971 | loading the checkpoint, resolving the start and running the loop leave what the crawl specification gives |
| Crawler.CoupangCrawler.SaveResults | Desktop/aws/coupang-crawler-project/crawler.py:1255-1291 | the result file becomes the old file with the records appended |
| Crawler.CoupangCrawler.SaveBatch | Desktop/aws/coupang-crawler-project/crawler.py:934-940 | saving one batch is the one-batch case of saving batch after batch |
| Crawler.CoupangCrawler.ProcessBatch | Desktop/aws/coupang-crawler-project/crawler.py:1027-1253 | `_process_batch` returns the batch's records, sleeps and blocked position as the specification function says |
| Crawler.CoupangCrawler.RunBatch | Desktop/aws/coupang-crawler-project/crawler.py:913-971 | one pass of the loop leaves the checkpoints, the file and the sleeps of the batch-step function |
| Crawler.CoupangCrawler.AdvanceBatch | Desktop/aws/coupang-crawler-project/crawler.py:913-971 | after the first b passes, one more pass leaves the state of the first b + 1 passes |
| Crawler.CoupangCrawler.RunBatches | Desktop/aws/coupang-crawler-project/crawler.py:913-971 | the batch loop leaves the checkpoints, records, file and sleeps of the whole-loop function |

## Left out

- Spreadsheet I/O is left out. The input and result files are tables of values, and reading or writing Excel is not modelled. In particular, `read_excel` turns the string "NA" back into NaN when a file is read again, which the model does not capture.
- `Value.Null` stands for both Python `None` and pandas NaN; the model does not tell them apart.
- `Text.Lower` lower-cases ASCII letters only; Unicode case mapping is out of scope.
- FirstNumber: reads ASCII digits only. Python's `\d` (crawler.py:674, 775) and `int()` also accept other Unicode decimal digits, which the model does not recognise; the AppleCare amount search has the same limit.
- ProcessUrls: assumes the configuration holds a numeric `recovery_wait`. When the key is missing or null, `config.get('recovery_wait')//60` at crawler.py:837 raises TypeError before any work, and the outer handler (crawler.py:1023-1025) ends the run having done nothing; the model always proceeds.
- Launchable: treats chromium, firefox and webkit as launching. A `launch` that raises for one of these names (a missing browser binary, say) propagates to the outer handler and is not modelled.
- SaveStatus: always succeeds. A failed write, which `save_status` logs and which leaves the old checkpoint file in place (or a truncated one), is not modelled.
- ExtractOutcome: the attempt outcomes are scripted and may fail early or late. In the source the name and price extractors catch their own exceptions (crawler.py:609-650, 654-793), so an attempt can fail only through what lies around them; the model allows failures the source may never produce, so its statements cover a superset of the source's behaviours.
- Negative start or end indices, which Python slicing would count from the end, are not modelled: indices are natural numbers.
- `Crawler.CoupangCrawler.ProcessUrls` requires a batch size of at least 1. In the source a batch size of 0 (a configured `batch_size: 0` passes the `or` at crawler.py:828) or a negative argument never ends the batch loop on a non-empty window: the test `batch_idx * batch_size < total_urls` at crawler.py:915 stays true, and every pass saves a checkpoint, launches a browser, crawls an empty range and takes the batch wait. Nothing raises. The model rules this run out by that requirement.
- `Validator.ValidateWith` models a batch size of 0 as a failed validation, not as an exception raised by `range`.
- The stealth script (`apply_stealth_script`) and the default cookies (`set_default_cookies`) are left out. They change only what the browser reports, not the crawl's data flow.
- The proxy probe is a boolean parameter; the network request itself is left out.
- Random waits are recorded as `Pause` tokens. `random.uniform` over real numbers and the clock are parameters, not values.
- The crawler's `stats` counters and `consecutive_failures` are left out. They feed only logging and never change control flow.
- `wait_for_selector` and any reload calls are left out. Their failures are caught or scripted through the extraction attempts.
- The "Page load failed after retries" row of `_process_batch` (lines 1139-1160) is not modelled, because it cannot be reached.
- Writing a blocked page's HTML to disk is left out; only the file-name sanitiser is modelled.
- The backup file written when saving fails is left out, as are the `_original` and `_validated` files the validator writes. The validated table is returned instead.
- `mask.any()` in `_update_dataframe` only chooses a log message, so it is left out.
- `Common.Pad` drops record cells outside the file's columns. `_update_dataframe` does the same; the concatenation of new rows widens the columns first, so nothing is dropped there.
- The working-directory `crawler_status.json` that the completion step resets is a field of its own (`cwdStatus`), separate from the configuration's status file. The timestamp in the status file is not modelled.
- Logging, `_print_stats`, `main`, `app.py` and `merger.py` are not part of this model.
