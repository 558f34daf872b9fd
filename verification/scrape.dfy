/** Model of scrape.py: the whole-word IT-title classifier, the extraction
    of candidate job titles from a page's tag texts, the static fetch with
    its headless-browser fallback, and the result rows of a batch.

    A fetched page is the sequence of the stripped texts of its `a`, `li`,
    `span`, `p`, `h2` and `h3` tags in document order, or `None` when the
    fetch, the render or the parse raised. */
module Scrape {

  import opened Wrappers
  import opened Strings
  import opened Table
  import opened Seqs

  /* ---------------------------------------------------------------- */
  /* is_it_job                                                         */
  /* ---------------------------------------------------------------- */

  const ItKeywords: seq<string> := [
    "data", "developer", "software", "engineer", "it", "cloud", "infrastructure",
    "network", "devops", "cyber", "security", "ai", "ml", "machine learning",
    "backend", "frontend", "fullstack", "qa", "support", "tech", "analyst", "sql"
  ]

  /** `is_it_job`: `re.search(rf"\b{kw}\b", title, re.IGNORECASE)` succeeds
      for some keyword. Ignoring case is searching the lower-cased title
      for the (lower-case) keyword. */
  predicate IsItJob(title: string) {
    exists k | k in ItKeywords :: Search(Lower(title), k, 0).Some?
  }

  /** Every keyword starts and ends with a word character, so that
      `WordAt` is exactly what `\bkw\b` matches. */
  lemma ItKeywordsAreWords()
    ensures forall k | k in ItKeywords :: WordShaped(k)
  {
  }

  /** Every keyword is lower case, so that matching it with
      `re.IGNORECASE` is matching the lower-cased title
      (`IgnoringCaseIsLowerMatch`). */
  lemma ItKeywordsAreLower()
    ensures forall k | k in ItKeywords :: IsLower(k)
  {
    LowerCaseLetters("data");
    LowerCaseLetters("developer");
    LowerCaseLetters("software");
    LowerCaseLetters("engineer");
    LowerCaseLetters("it");
    LowerCaseLetters("cloud");
    LowerCaseLetters("infrastructure");
    LowerCaseLetters("network");
    LowerCaseLetters("devops");
    LowerCaseLetters("cyber");
    LowerCaseLetters("security");
    LowerCaseLetters("ai");
    LowerCaseLetters("ml");
    LowerCaseLetters("machine learning");
    LowerCaseLetters("backend");
    LowerCaseLetters("frontend");
    LowerCaseLetters("fullstack");
    LowerCaseLetters("qa");
    LowerCaseLetters("support");
    LowerCaseLetters("tech");
    LowerCaseLetters("analyst");
    LowerCaseLetters("sql");
  }

  /** Every keyword but "machine learning" is a single word. */
  lemma ItKeywordsOneWord()
    ensures forall k | k in ItKeywords && k != "machine learning" :: ' ' !in k
  {
    NoBlankInLetters("data");
    NoBlankInLetters("developer");
    NoBlankInLetters("software");
    NoBlankInLetters("engineer");
    NoBlankInLetters("it");
    NoBlankInLetters("cloud");
    NoBlankInLetters("infrastructure");
    NoBlankInLetters("network");
    NoBlankInLetters("devops");
    NoBlankInLetters("cyber");
    NoBlankInLetters("security");
    NoBlankInLetters("ai");
    NoBlankInLetters("ml");
    NoBlankInLetters("backend");
    NoBlankInLetters("frontend");
    NoBlankInLetters("fullstack");
    NoBlankInLetters("qa");
    NoBlankInLetters("support");
    NoBlankInLetters("tech");
    NoBlankInLetters("analyst");
    NoBlankInLetters("sql");
  }

  /** `is_it_job` holds exactly when some keyword occurs in the lower-cased
      title as a whole word: bounded on each side by a non-word character
      or an end of the title. */
  lemma ItJobIsWholeWordMatch(title: string)
    ensures IsItJob(title) <==> exists k | k in ItKeywords :: ContainsWord(Lower(title), k)
  {
    forall k | k in ItKeywords
      ensures Search(Lower(title), k, 0).Some? <==> ContainsWord(Lower(title), k)
    {
      SearchFindsWord(Lower(title), k);
    }
  }

  /** `is_it_job` as written: some keyword matches the title itself, with
      letter case ignored, bounded by non-word characters or the ends of the
      title. */
  lemma ItJobIsCaseInsensitiveWordMatch(title: string)
    ensures IsItJob(title) <==>
      exists k, i | k in ItKeywords && 0 <= i <= |title| :: WordIgnoringCaseAt(title, k, i)
  {
    ItKeywordsAreLower();
    ItJobIsWholeWordMatch(title);
    if IsItJob(title) {
      var k, i :| k in ItKeywords && 0 <= i <= |title| - |k| && WordAt(Lower(title), k, i);
      WordIgnoringCaseIsLowerWord(title, k, i);
    }
    if exists k, i | k in ItKeywords && 0 <= i <= |title| :: WordIgnoringCaseAt(title, k, i) {
      var k, i :| k in ItKeywords && 0 <= i <= |title| && WordIgnoringCaseAt(title, k, i);
      WordIgnoringCaseIsLowerWord(title, k, i);
      assert ContainsWord(Lower(title), k);
    }
  }

  /** The classifier ignores letter case. */
  lemma ItJobIgnoresCase(title: string)
    ensures IsItJob(title) <==> IsItJob(Lower(title))
  {
    LowerIdempotent(title);
  }

  /** A title made only of word characters can match a keyword only by
      being that keyword, whatever its case. */
  lemma ItJobSolidTitle(title: string)
    requires forall i | 0 <= i < |title| :: IsWordChar(title[i])
    ensures IsItJob(title) <==> Lower(title) in ItKeywords
  {
    var s := Lower(title);
    forall i | 0 <= i < |s|
      ensures IsWordChar(s[i])
    {
      LowerKeepsWordChars(title[i]);
    }
    if IsItJob(title) {
      var k :| k in ItKeywords && Search(s, k, 0).Some?;
      WordInSolidString(s, k, Search(s, k, 0).value);
    }
    if s in ItKeywords {
      assert WordAt(s, s, 0);
      assert Search(s, s, 0).Some?;
    }
  }

  /** "Data Engineer" is an IT title. */
  lemma DataEngineerIsItJob()
    ensures IsItJob("Data Engineer")
  {
    var s := Lower("Data Engineer");
    assert s[..4] == "data" && s[4] == ' ';
    assert WordAt(s, "data", 0);
    assert Search(s, "data", 0).Some?;
  }

  /** "Databases101" is not: "data" sits inside a longer word. */
  lemma DatabasesIsNotItJob()
    ensures !IsItJob("Databases101")
  {
    var t := "Databases101";
    assert forall i | 0 <= i < |t| :: IsWordChar(t[i]);
    ItJobSolidTitle(t);
    assert |Lower(t)| == 12;
  }

  /* ---------------------------------------------------------------- */
  /* The filter of scrape_static / scrape_dynamic                      */
  /* ---------------------------------------------------------------- */

  /** A tag text worth keeping: longer than 5 and shorter than 100
      characters, and an IT title. */
  predicate IsCandidate(text: string) {
    5 < |text| < 100 && IsItJob(text)
  }

  /** The set comprehension of `scrape_static` and `scrape_dynamic`: the
      qualifying tag texts. */
  function CandidateSet(texts: seq<string>): set<string> {
    set t | t in texts && IsCandidate(t)
  }

  /** `list(jobs)`: the qualifying tag texts without repetition. Python
      leaves the order of a set's list unspecified; this one keeps the
      order of first appearance. */
  function Candidates(texts: seq<string>): (r: seq<string>)
    ensures Distinct(r)
    ensures forall t :: t in r <==> t in texts && IsCandidate(t)
    decreases |texts|
  {
    if |texts| == 0 then []
    else
      var init := texts[..|texts| - 1];
      var last := texts[|texts| - 1];
      var rest := Candidates(init);
      assert texts == init + [last];
      if IsCandidate(last) && last !in rest then rest + [last] else rest
  }

  /** The list holds exactly the set comprehension's texts, each once. */
  lemma CandidatesAreTheSet(texts: seq<string>)
    ensures (set t | t in Candidates(texts)) == CandidateSet(texts)
    ensures |Candidates(texts)| == |CandidateSet(texts)|
  {
    DistinctCardinality(Candidates(texts));
  }

  /** The candidates of a fetched page; none when the page raised. */
  function PageCandidates(page: Option<seq<string>>): (r: seq<string>)
    ensures Distinct(r)
    ensures page.None? ==> r == []
    ensures page.Some? ==> forall t :: t in r <==> t in page.value && IsCandidate(t)
  {
    match page
    case None => []
    case Some(texts) => Candidates(texts)
  }

  /** The candidate set of a fetched page; empty when the page raised. */
  function PageSet(page: Option<seq<string>>): set<string> {
    match page
    case None => {}
    case Some(texts) => CandidateSet(texts)
  }

  /* ---------------------------------------------------------------- */
  /* Static fetch, then headless-browser fallback                     */
  /* ---------------------------------------------------------------- */

  /** How a page is obtained: a plain HTTP GET, or a headless-browser
      render. */
  datatype Fetcher = Static | Dynamic

  /** The job titles found, and the fetches made, in order. */
  datatype ScrapeRun = ScrapeRun(jobs: seq<string>, fetches: seq<Fetcher>)

  /** `scrape_static(url)`, and only when it finds nothing,
      `scrape_dynamic(url)`: the first non-empty result wins. */
  function ScrapeWithFallback(url: string, fetch: (Fetcher, string) -> Option<seq<string>>): (r: ScrapeRun)
    ensures Distinct(r.jobs)
    ensures forall t | t in r.jobs :: IsCandidate(t)
    ensures PageSet(fetch(Static, url)) != {} ==>
      r.fetches == [Static] && (set t | t in r.jobs) == PageSet(fetch(Static, url))
    ensures PageSet(fetch(Static, url)) == {} ==>
      r.fetches == [Static, Dynamic] && (set t | t in r.jobs) == PageSet(fetch(Dynamic, url))
  {
    var staticJobs := PageCandidates(fetch(Static, url));
    if staticJobs != [] then
      assert staticJobs[0] in PageSet(fetch(Static, url));
      ScrapeRun(staticJobs, [Static])
    else
      ScrapeRun(PageCandidates(fetch(Dynamic, url)), [Static, Dynamic])
  }

  /** The browser is started at most once per website, and only after the
      plain fetch found nothing; no titles at all means both were tried. */
  lemma FallbackRendersAtMostOnce(url: string, fetch: (Fetcher, string) -> Option<seq<string>>)
    ensures var r := ScrapeWithFallback(url, fetch);
      && r.fetches[0] == Static
      && multiset(r.fetches)[Dynamic] <= 1
      && (Dynamic in r.fetches <==> PageSet(fetch(Static, url)) == {})
      && (r.jobs == [] ==> r.fetches == [Static, Dynamic] && PageSet(fetch(Dynamic, url)) == {})
  {
    var r := ScrapeWithFallback(url, fetch);
    if PageSet(fetch(Static, url)) != {} {
      var t :| t in PageSet(fetch(Static, url));
      assert t in (set x | x in r.jobs);
    } else if PageSet(fetch(Dynamic, url)) != {} {
      var t :| t in PageSet(fetch(Dynamic, url));
      assert t in (set x | x in r.jobs);
    }
  }

  /* ---------------------------------------------------------------- */
  /* main: one result row per job title                                */
  /* ---------------------------------------------------------------- */

  /** One row of the results file (the scrape time is left out). */
  datatype ResultRow = ResultRow(company: string, title: string, url: string, batch: string)

  /** `if not url or pd.isna(url): continue`. */
  predicate HasWebsite(row: CompanyRow) {
    row.website.Some? && row.website.value != ""
  }

  /** `for job in set(jobs)`: one row per job title. The titles come from
      `ScrapeWithFallback` and hold no repeats, so the set of the loop is
      the list itself. */
  function TitleRows(company: string, url: string, batch: string, jobs: seq<string>): (r: seq<ResultRow>)
    requires Distinct(jobs)
    ensures forall x | x in r :: x.company == company && x.url == url && x.batch == batch && x.title in jobs
    ensures forall t | t in jobs :: exists x | x in r :: x.title == t
    ensures forall i, j | 0 <= i < j < |r| :: r[i].title != r[j].title
  {
    var r := seq(|jobs|, i requires 0 <= i < |jobs| => ResultRow(company, jobs[i], url, batch));
    assert forall i | 0 <= i < |jobs| :: r[i].title == jobs[i];
    r
  }

  /** The result rows of one spreadsheet row: none without a website;
      otherwise one per distinct job title found, each carrying the row's
      company and website and the batch name. */
  function RowResults(row: CompanyRow, batch: string, fetch: (Fetcher, string) -> Option<seq<string>>)
    : (r: seq<ResultRow>)
    ensures !HasWebsite(row) ==> r == []
    ensures forall x | x in r ::
      x.company == row.company && Some(x.url) == row.website && x.batch == batch && IsCandidate(x.title)
    ensures HasWebsite(row) ==>
      (set x | x in r :: x.title) == (set t | t in ScrapeWithFallback(row.website.value, fetch).jobs)
    ensures forall i, j | 0 <= i < j < |r| :: r[i].title != r[j].title
  {
    if !HasWebsite(row) then []
    else
      var url := row.website.value;
      var jobs := ScrapeWithFallback(url, fetch).jobs;
      TitleRows(row.company, url, batch, jobs)
  }

  /** `main`'s loop over the rows in order. */
  function BatchResults(rows: seq<CompanyRow>, batch: string, fetch: (Fetcher, string) -> Option<seq<string>>)
    : (r: seq<ResultRow>)
    ensures forall x | x in r ::
      IsCandidate(x.title) && x.batch == batch
      && exists row | row in rows :: HasWebsite(row) && row.company == x.company && row.website == Some(x.url)
    ensures forall row, x | row in rows && x in RowResults(row, batch, fetch) :: x in r
    ensures (forall row | row in rows :: !HasWebsite(row)) ==> r == []
  {
    var each := row => RowResults(row, batch, fetch);
    assert forall row :: each(row) == RowResults(row, batch, fetch);
    FlatMap(rows, each)
  }

  /** Rows are handled independently: the results of `a + b` are those of
      `a` followed by those of `b`. */
  lemma BatchResultsAppend(
    a: seq<CompanyRow>, b: seq<CompanyRow>, batch: string, fetch: (Fetcher, string) -> Option<seq<string>>)
    ensures BatchResults(a + b, batch, fetch) == BatchResults(a, batch, fetch) + BatchResults(b, batch, fetch)
  {
    var each := row => RowResults(row, batch, fetch);
    assert BatchResults(a + b, batch, fetch) == FlatMap(a + b, each);
    assert BatchResults(a, batch, fetch) == FlatMap(a, each);
    assert BatchResults(b, batch, fetch) == FlatMap(b, each);
    FlatMapAppend(a, b, each);
  }

  /** A single row contributes exactly its own result rows: one per distinct
      title found on its website. With `BatchResultsAppend` this fixes the
      results of any list of rows, in order and in full. */
  lemma BatchResultsOne(row: CompanyRow, batch: string, fetch: (Fetcher, string) -> Option<seq<string>>)
    ensures BatchResults([row], batch, fetch) == RowResults(row, batch, fetch)
  {
    var each := row => RowResults(row, batch, fetch);
    assert BatchResults([row], batch, fetch) == FlatMap([row], each);
    assert [row][1..] == [];
  }

  /** A fetch that, like `requests.get` and the browser's `page.goto`, fails
      on a URL without a scheme; no URL containing no colon has one. */
  ghost predicate RefusesBareHosts(fetch: (Fetcher, string) -> Option<seq<string>>) {
    forall f: Fetcher, url: string | ':' !in url :: fetch(f, url).None?
  }

  /** The website cell is used as it is, without `format_url`'s clean-up:
      a bare host name such as "acme.example" makes both fetches fail, so
      the row yields no result rows whatever the site holds. */
  lemma BareWebsiteYieldsNothing(
    row: CompanyRow, batch: string, fetch: (Fetcher, string) -> Option<seq<string>>)
    requires RefusesBareHosts(fetch)
    requires row.website.Some? && ':' !in row.website.value
    ensures RowResults(row, batch, fetch) == []
  {
    var url := row.website.value;
    assert fetch(Static, url).None? && fetch(Dynamic, url).None?;
  }

  /** A batch in which no row has a website produces no rows; the file the
      script writes then holds the header only. */
  lemma NoWebsiteNoResults(
    rows: seq<CompanyRow>, batch: string, fetch: (Fetcher, string) -> Option<seq<string>>)
    requires forall i | 0 <= i < |rows| :: !HasWebsite(rows[i])
    ensures BatchResults(rows, batch, fetch) == []
  {
    assert forall row | row in rows :: !HasWebsite(row);
  }

}
