# Career-site job scraper, modelled in Dafny

The repository holds two scripts that scan company websites for job titles.

- `scraper.py` first cleans the `Website` column of a spreadsheet. For each company it then finds a career page among the home page's links and reads job postings off it: title, link and posted date. A title counts as a job when it contains a data-related keyword as a plain substring. The script splits the companies into "MatchedJobs" and "NoJobsFound".
- `scrape.py` reads the tag texts of each website. It first uses a plain HTTP fetch and falls back to a headless-browser render when that finds nothing. It keeps the texts of 6 to 99 characters that contain an IT keyword as a whole word, and writes one result row per distinct title.

This project models the pure logic of both scripts as total functions over strings and sequences. It proves what that logic guarantees.

- The outside world is passed in as parameters:
  - a page is the sequence of its links (for `scraper.py`) or of its tag texts (for `scrape.py`), or `None` when the fetch, render or parse raised;
  - `urljoin` is the function parameter `join`.
- The modules are:
  - `Wrappers`: `Option`.
  - `Table`: one input spreadsheet row.
  - `Seqs`: the generic filter-and-map, and distinctness.
  - `Strings`: `str.strip()`, `str.lower()`, `startswith`, the substring test `k in s`, and the whole-word search of `\bw\b`.
  - `Scraper`: `scraper.py`.
  - `Scrape`: `scrape.py`.
  - `Scenarios`: worked cases on concrete inputs.
- The modelled Python behaviour:
  - `str.strip()` removes exactly the characters for which Python's `str.isspace()` holds.
  - `str.lower()` and the regular-expression word class `\w` are restricted to ASCII (see "Left out").
  - The scripts' exception handlers turn a failure into an empty result. A page that raised is `None`, and every operation on it gives that empty result.

## Model

| member | source | states |
|---|---|---|
| `Strings.Strip` | scraper.py:36-38 | The stripped text has no whitespace at either end, and it is what remains of the input once only whitespace is cut from both ends. |
| `Strings.StripUnique` | scraper.py:36-38 | Any whitespace-free-ended substring surrounded only by whitespace is the stripped text, so stripping is determined by these two facts alone. |
| `Strings.StripIdempotent` | scraper.py:38 | Stripping twice is stripping once. |
| `Strings.LowerIdempotent` | scraper.py:64 | Lower-casing twice is lower-casing once. |
| `Strings.LowerAppend` | scraper.py:64 | Lower-casing works character by character, so it distributes over concatenation. |
| `Strings.ContainsExtend` | scraper.py:65 | A substring occurrence survives any text added before or after. |
| `Strings.Lower` | scraper.py:64 | Lower-casing keeps the length and maps each character on its own (ASCII letters only). `Strings.LowerIdempotent` and `Strings.LowerAppend` state what callers rely on. |
| `Strings.IgnoringCaseIsLowerMatch` | scrape.py:21 | For a lower-case pattern, matching with letter case ignored, as `re.IGNORECASE` does, is matching the lower-cased text. |
| `Strings.WordIgnoringCaseIsLowerWord` | scrape.py:21 | For a lower-case pattern, a whole-word match with case ignored in the text is a whole-word match in the lower-cased text, at the same index. |
| `Strings.Search` | scrape.py:21 | The search returns the leftmost index at which the pattern occurs bounded by non-word characters or the ends of the text, or nothing exactly when there is no such index. For a pattern that starts and ends with a word character, this is where `\bw\b` matches. |
| `Strings.SearchFindsWord` | scrape.py:21 | A search from the start succeeds exactly when the pattern occurs somewhere as a whole word, bounded as in `Strings.Search`. |
| `Strings.WordIsSubstring` | scrape.py:21 | Every whole-word match is also a substring match. |
| `Strings.WordInSolidString` | scrape.py:21 | In a string of word characters only, a whole-word occurrence can only be the whole string. |
| `Strings.WordInSplit` | scrape.py:21 | A whole-word match of a pattern without a given non-word separator lies entirely on one side of it. |
| `Seqs.FilterMapAppend` | scraper.py:75-103 | Collecting postings link by link: the result for `a + b` is the result for `a` followed by the result for `b`, so postings keep document order. |
| `Seqs.FlatMapAppend` | scrape.py:64-83 | Concatenating per-row results: the result for `a + b` is the result for `a` followed by the result for `b`. |
| `Scraper.FormatUrl` | scraper.py:35-41 | The result is absent exactly when the cell is missing or its stripped text is "", "nan" or "None". Otherwise it starts with `http://` or `https://`, has no surrounding whitespace, and is the stripped text, with `https://` in front when it had neither scheme. |
| `Scraper.HasScheme` | scraper.py:39 | A website has a scheme when it starts with `http://` or `https://`, case-sensitively. `Scraper.FormatUrl` states what the clean-up does with it. |
| `Scraper.FormatUrlIdempotent` | scraper.py:35-41 | Cleaning a cleaned website again leaves it unchanged. |
| `Scraper.IsDataRelated` | scraper.py:61-65 | A title is data-related when some keyword is a substring of the lower-cased title. `Scraper.DataRelatedIgnoresCase`, `Scraper.DataRelatedExtend` and `Scenarios.ClassifiersDisagree` state its consequences. |
| `Scraper.DataRelatedIgnoresCase` | scraper.py:63-65 | The substring classifier gives the same answer for a title and its lower-cased form. |
| `Scraper.DataRelatedExtend` | scraper.py:65 | A title that is accepted stays accepted with any text added before or after it. |
| `Scraper.IsCareerLink` | scraper.py:51-53 | A link names a career page when its lower-cased href or lower-cased text contains "career", "jobs", "join-us", "opportunities" or "work with us". `Scraper.CareerLinkIgnoresCase` states its partner fact. |
| `Scraper.CareerLinkIgnoresCase` | scraper.py:51-53 | The career-link test gives the same answer for a link and its lower-cased href and text. |
| `Scraper.FirstCareerLink` | scraper.py:50-55 | The scan returns the first index at or after its start whose lower-cased href or text contains a career indicator, or nothing exactly when no such link exists. |
| `Scraper.FindCareerPage` | scraper.py:46-58 | There is no career page when the fetch failed. Otherwise there is one exactly when some link qualifies, and it is `join(base, href)` of the first qualifying link in document order. |
| `Scraper.CareerPageAtFirst` | scraper.py:50-54 | When a link is the first career link of a page, the career page is `join(base, href)` of that link. |
| `Scraper.CareerPageIgnoresLaterLinks` | scraper.py:50-54 | When some link of a page names a career page, links appended after them never change the answer: the scan returns at the first match. |
| `Scraper.CareerPageSkipsOtherLinks` | scraper.py:50-55 | Links that name no career page, placed in front, never change the answer. |
| `Scraper.PostedDate` | scraper.py:81-95 | The posted date of a job link, read off the link's parent. `Scraper.PostedDatePriority` states the order of preference. |
| `Scraper.MentionsDate` | scraper.py:92-93 | Parent text mentions a date when "posted", "date", "listed" or "open" is a substring of it. `Scraper.PostedDatePriority` states how this selects the lower-cased parent text over "N/A". |
| `Scraper.PostedDatePriority` | scraper.py:81-95 | The posted date is chosen in this order: a non-empty `datetime` attribute of the parent's `<time>`, then its stripped text, then the lower-cased parent text when it mentions "posted", "date", "listed" or "open", then "N/A". The last two outcomes cannot be confused. |
| `Scraper.LowerNotSentinel` | scraper.py:81-95 | Lower-cased text never equals the sentinel "N/A". |
| `Scraper.PostedDateTimeTagWins` | scraper.py:85-89 | With a `<time>` element present, the parent's own text does not affect the posted date. |
| `Scraper.JobUrl` | scraper.py:80 | The job URL is the href itself when it starts with "http", else the href resolved against the career page. `Scraper.JobUrlAbsolute` states its partner fact. |
| `Scraper.JobUrlAbsolute` | scraper.py:80 | An href starting with "http" is kept whatever the career page and `urljoin` are. |
| `Scraper.IsJobLink` | scraper.py:76-79 | A link is a job link when its stripped text is data-related. `Scraper.Postings` states that exactly these links yield postings. |
| `Scraper.PostingFor` | scraper.py:97-103 | A posting carries the company, the stripped link text as title (stripped, so no whitespace at its ends), the job URL, the link's posted date and the career page. |
| `Scraper.Postings` | scraper.py:75-103 | Every link whose stripped text is data-related yields its posting, every posting comes from such a link, and the list is empty exactly when no link qualifies. |
| `Scraper.ScrapeJobsFromPortal` | scraper.py:68-108 | There are no postings when the career page could not be fetched. Otherwise the list is empty exactly when no link is data-related, and every posting carries the company, the career page and a data-related title. |
| `Scraper.Found` | scraper.py:122 | A career page counts as found when it is present and not empty, as Python's truthiness of a string demands. |
| `Scraper.Place` | scraper.py:114-129 | A row is skipped exactly when its cleaned website is absent, and it contributes jobs exactly when a career page is found and yields postings. Every other row gives one "no jobs" entry with its company and cleaned website, and the found career page or "Not Found". |
| `Scraper.Batch` | scraper.py:111-129 | Each "no jobs" entry and each matched job comes from an input row with a website. Each "no jobs" website has a scheme, and each matched title is data-related. |
| `Scraper.PlaceAllAppend` | scraper.py:114-129 | Each row is placed on its own: placing `a + b` places `a`, then `b`. |
| `Scraper.Collect` | scraper.py:111-129 | Collecting placements gives at most one "no jobs" entry per row. An entry is collected exactly when it belongs to an unmatched placement, and a job exactly when it belongs to a matched placement. |
| `Scraper.CollectLast` | scraper.py:122-129 | One more placement appends its jobs to `all_jobs`, or its entry to `no_job_companies`, or nothing when it was skipped. |
| `Scraper.CollectAppend` | scraper.py:114-129 | Appending placements row by row: the two lists built from `a + b` are those from `a` followed by those from `b`. |
| `Scraper.BatchKeepsEveryRow` | scraper.py:122-129 | Nothing is dropped: every job of a row with jobs is in `all_jobs`, and every row's "no jobs" entry is in `no_job_companies`. |
| `Scraper.BatchAppend` | scraper.py:111-129 | Rows are handled independently: the batch of `a + b` is the batch of `a` followed by the batch of `b`. |
| `Scraper.BatchOne` | scraper.py:118-129 | A single row gives nothing when it has no website, all of its postings when its career page is found and yields some, and its one "no jobs" entry otherwise. With `Scraper.BatchAppend` this fixes the batch of any list of rows, in order and in full. |
| `Scraper.BatchAccountsForEveryRow` | scraper.py:114-129 | Every row with a website lands in exactly one place. "No jobs" entries and rows with jobs together number the rows with a website, and each row with jobs adds at least one posting. |
| `Scraper.BatchOneCounts` | scraper.py:118-129 | The counting statement of `Scraper.BatchAccountsForEveryRow` for a single row. |
| `Scrape.ItKeywordsAreWords` | scrape.py:11-15 | Every IT keyword starts and ends with a word character, so `\bkw\b` means "bounded by non-word characters or the ends of the title". |
| `Scrape.ItKeywordsAreLower` | scrape.py:11-15 | Every IT keyword is lower case. So `Lower` applied to the title, with the keyword as written, gives what `re.IGNORECASE` does. |
| `Scrape.ItKeywordsOneWord` | scrape.py:11-15 | Every IT keyword except "machine learning" contains no blank. |
| `Scrape.IsItJob` | scrape.py:20-21 | A title is an IT title when some keyword is found in the lower-cased title as a whole word. `Scrape.ItJobIsCaseInsensitiveWordMatch` relates this to the case-insensitive `re.search` of `is_it_job`. |
| `Scrape.ItJobIsCaseInsensitiveWordMatch` | scrape.py:20-21 | A title is an IT title exactly when some keyword matches the title itself with letter case ignored, bounded by non-word characters or the ends of the title. |
| `Scrape.ItJobIsWholeWordMatch` | scrape.py:20-21 | A title is an IT title exactly when some keyword occurs in its lower-cased form as a whole word. |
| `Scrape.ItJobIgnoresCase` | scrape.py:20-21 | The whole-word classifier gives the same answer for a title and its lower-cased form. |
| `Scrape.ItJobSolidTitle` | scrape.py:20-21 | A title made only of word characters is an IT title exactly when, lower-cased, it is one of the keywords. |
| `Scrape.DataEngineerIsItJob` | scrape.py:20-21 | "Data Engineer" is an IT title. |
| `Scrape.DatabasesIsNotItJob` | scrape.py:20-21 | "Databases101" is not an IT title. |
| `Scrape.IsCandidate` | scrape.py:31 | A tag text qualifies when it is longer than 5 and shorter than 100 characters and is an IT title. `Scrape.Candidates` states the filter built on it. |
| `Scrape.Candidates` | scrape.py:28-33 | The extracted titles have no repeats, and a text is among them exactly when it is one of the page's texts, longer than 5 and shorter than 100 characters, and an IT title. |
| `Scrape.CandidatesAreTheSet` | scrape.py:28-33 | The extracted list holds exactly the elements of the set comprehension of `scrape_static` and `scrape_dynamic`, with as many entries as the set has members. |
| `Scrape.PageCandidates` | scrape.py:23-36 | A page that raised gives no titles. Otherwise the titles are exactly the page's qualifying texts, without repeats. |
| `Scrape.ScrapeWithFallback` | scrape.py:72-74 | When the plain fetch finds titles, those are the result and only that fetch is made. Otherwise the browser render is made second and its titles are the result. All titles qualify and none repeats. |
| `Scrape.FallbackRendersAtMostOnce` | scrape.py:72-74 | The plain fetch always comes first, and the browser runs at most once, exactly when the plain fetch found nothing. No titles at all means both were tried and both came up empty. |
| `Scrape.HasWebsite` | scrape.py:68 | A row has a website when its cell is present and not empty; the cell is used as it is. `Scrape.RowResults` and `Scrape.NoWebsiteNoResults` state what follows. |
| `Scrape.TitleRows` | scrape.py:76-83 | For a list of distinct titles, as the fallback delivers, there is one row per title, each carrying the company, URL and batch name, and no two rows share a title. |
| `Scrape.RowResults` | scrape.py:64-83 | A row without a website gives nothing. Otherwise it gives one row per distinct title found, each with the row's company and website and the batch name. |
| `Scrape.BatchResults` | scrape.py:64-83 | Every result row has a qualifying title and the batch name, and comes from an input row with a website, with the same company and URL. Conversely, every result row of every input row reaches the batch. |
| `Scrape.BatchResultsOne` | scrape.py:76-83 | A single row contributes exactly its own result rows, one per distinct title. With `Scrape.BatchResultsAppend` this fixes the results of any list of rows, in order and in full. |
| `Scrape.BatchResultsAppend` | scrape.py:64-83 | Rows are handled independently: the results of `a + b` are those of `a` followed by those of `b`. |
| `Scrape.NoWebsiteNoResults` | scrape.py:68-69 | A batch in which no row has a website yields no result rows. |
| `Scrape.BareWebsiteYieldsNothing` | scrape.py:66-74 | The website cell goes to the fetches unchanged. So for fetches that fail on URLs without a scheme, as `requests.get` and the browser do, a bare host name yields no result rows whatever the site holds. |
| `Scenarios.ClassifiersDisagree` | scraper.py:61-65 | "Databases101" is data-related for the substring classifier of `scraper.py` and not an IT title for the whole-word classifier of `scrape.py`. |
| `Scenarios.MobileDeveloperIsDataRelated` | scraper.py:61-65 | Substring matching accepts "Mobile Developer" through the keyword "bi". |
| `Scenarios.FormatUrlAddsScheme` | scraper.py:38-40 | "  acme.example " becomes "https://acme.example". |
| `Scenarios.FormatUrlNan` | scraper.py:36-37 | The cell " nan " means no website. |
| `Scenarios.SchemeAdded` | scraper.py:36-40 | A cell whose stripped text is not "", "nan" or "None" and has no scheme, whatever its length, gets `https://` in front of that text. |
| `Scenarios.FormatUrlKeepsScheme` | scraper.py:38-41 | "http://acme.example" is kept as it is. |
| `Scenarios.FormatUrlUpperCaseScheme` | scraper.py:39-40 | The scheme test is case-sensitive: "HTTP://acme.example" gets "https://" put in front. |
| `Scenarios.OfficeLunchMenuIsNotItJob` | scrape.py:20-21 | "Office Lunch Menu" contains no IT keyword as a whole word. |
| `Scenarios.SeniorDataAnalystIsItJob` | scrape.py:20-21 | "Senior Data Analyst" is an IT title. |
| `Scenarios.AcmeRun` | scrape.py:72-74 | At "https://acme.example", a page holding "Senior Data Analyst" and "Office Lunch Menu" yields only the first title, and the browser is never started. |
| `Scenarios.AcmeBatch` | scrape.py:64-83 | A one-company batch whose website "https://acme.example" serves that page writes exactly one result row, for "Senior Data Analyst". |
| `Scenarios.AcmeBareWebsite` | scrape.py:64-83 | The same company with the bare website "acme.example" yields no result row, because scrape.py fetches the cell unchanged and the fetch fails. |

## Left out

- Reading and writing files is not modelled: the Colab upload and download, `read_csv`/`read_excel` and the column check and concatenation (scraper.py:9-32), the Excel output (scraper.py:132-136), and the CSV output and its header-only form when nothing was found (scrape.py:86-92). It is I/O and pandas behaviour. `Scrape.NoWebsiteNoResults` covers the empty case up to the point of writing.
- `requests.get`, BeautifulSoup and the Playwright browser are not modelled. The page they produce is an input: a sequence of links with their parent's first `<time>` element and text, or a sequence of tag texts. The texts are as `get_text(strip=True)` returns them.
- `urljoin` (section 5.2 of RFC 3986) is the opaque parameter `join`.
- The fetch is a function of the URL, so the same URL always gives the same page. The model cannot express a site that answers differently on a second request.
- An exception raised half-way through a page is not modelled. The exception handlers are modelled only by a failed fetch giving the empty result, as if the failure happened before any link was read.
- `datetime.now()`, the "Scrape Time" column, `tqdm` progress and console printing are left out.
- Full Unicode lower-casing and the Unicode `\w` class are not modelled: `str.lower()` changes only `A`-`Z`, and word characters are ASCII letters, digits and `_`. For non-ASCII titles the model can therefore differ from Python.
- Spreadsheet cells that are neither text nor missing (numbers, say) are not modelled. On such a cell `format_url` would raise. Cells are text or missing (`None`, standing for NaN).
- `scrape.py` does not clean websites with `format_url`. Its rows keep the raw `Website` cell, exactly as scrape.py:66-74 uses it.
- The fetch parameters may answer any URL, including ones `requests.get` and the browser refuse: a URL without a scheme raises there, and the script records nothing. Only `Scrape.BareWebsiteYieldsNothing` and `Scenarios.AcmeBareWebsite` assume that such fetches fail. The other lemmas hold for every fetch.
- Python leaves the iteration order of `set(jobs)` unspecified. The model keeps first-appearance order, and the contracts speak only of which titles appear, and that each appears once.
- `Scraper.Postings`: its contract states which postings appear, not their order. Document order follows from `Seqs.FilterMapAppend`.
- `Scraper.Batch`: its contract states where entries come from. That nothing is dropped is stated by `Scraper.BatchKeepsEveryRow`. The exact lists, in order, follow from `Scraper.BatchOne` and `Scraper.BatchAppend`. `Scraper.BatchAccountsForEveryRow` states how many "no jobs" entries there are and a lower bound on the number of jobs.
