/** Model of scraper.py: website clean-up, the substring title classifier,
    locating a career page among a home page's links, reading job postings
    (with their posted date) off a career page, and the split of the batch
    into matched jobs and companies with no jobs found.

    A fetched page is the sequence of its `<a href>` links in document
    order, or `None` when fetching or parsing raised (the script then
    carries on with an empty result). `urljoin` is the parameter `join`. */
module Scraper {

  import opened Wrappers
  import opened Strings
  import opened Table
  import opened Seqs

  /* ---------------------------------------------------------------- */
  /* format_url                                                        */
  /* ---------------------------------------------------------------- */

  /** Cell texts that, once stripped, mean "no website". */
  const AbsentMarkers: seq<string> := ["", "nan", "None"]

  predicate HasScheme(url: string) {
    StartsWith(url, "http://") || StartsWith(url, "https://")
  }

  /** `format_url`: no website for a missing cell or one whose stripped
      text is blank, "nan" or "None"; otherwise the stripped text, with
      `https://` put in front when it starts with neither scheme. */
  function FormatUrl(raw: Option<string>): (r: Option<string>)
    ensures r.None? <==> raw.None? || Strip(raw.value) in AbsentMarkers
    ensures r.Some? ==> HasScheme(r.value) && IsStripped(r.value)
    ensures r.Some? && HasScheme(Strip(raw.value)) ==> r.value == Strip(raw.value)
    ensures r.Some? && !HasScheme(Strip(raw.value)) ==> r.value == "https://" + Strip(raw.value)
  {
    if raw.None? || Strip(raw.value) in AbsentMarkers then None
    else
      var url := Strip(raw.value);
      if HasScheme(url) then Some(url)
      else
        var full := "https://" + url;
        assert full[..8] == "https://";
        assert full[0] == 'h' && full[|full| - 1] == url[|url| - 1];
        Some(full)
  }

  /** A cleaned website is left unchanged by a second clean-up. */
  lemma FormatUrlIdempotent(raw: Option<string>)
    requires FormatUrl(raw).Some?
    ensures FormatUrl(FormatUrl(raw)) == FormatUrl(raw)
  {
    var url := FormatUrl(raw).value;
    StripStripped(url);
    assert |url| >= 7;
  }

  /* ---------------------------------------------------------------- */
  /* is_data_related                                                   */
  /* ---------------------------------------------------------------- */

  const Keywords: seq<string> :=
    ["data", "analyst", "analytics", "data science", "machine learning", "bi", "business intelligence"]

  /** `is_data_related`: some keyword is a substring of the lower-cased
      title. */
  predicate IsDataRelated(title: string) {
    exists k | k in Keywords :: Contains(Lower(title), k)
  }

  /** The classifier ignores letter case. */
  lemma DataRelatedIgnoresCase(title: string)
    ensures IsDataRelated(title) <==> IsDataRelated(Lower(title))
  {
    LowerIdempotent(title);
  }

  /** Putting text before or after an accepted title keeps it accepted. */
  lemma DataRelatedExtend(a: string, title: string, b: string)
    requires IsDataRelated(title)
    ensures IsDataRelated(a + title + b)
  {
    var k :| k in Keywords && Contains(Lower(title), k);
    ContainsExtend(Lower(a), Lower(title), Lower(b), k);
    LowerAppend(a + title, b);
    LowerAppend(a, title);
  }

  /* ---------------------------------------------------------------- */
  /* Links as parsed from a page                                       */
  /* ---------------------------------------------------------------- */

  /** The first `<time>` element inside a link's parent: its `datetime`
      attribute (if any) and its text. */
  datatype TimeTag = TimeTag(datetime: Option<string>, text: string)

  /** A link's parent element: its first `<time>` descendant and its text. */
  datatype Parent = Parent(time: Option<TimeTag>, text: string)

  /** An `<a href>` element: the raw `href`, its text and its parent. */
  datatype Link = Link(href: string, text: string, parent: Option<Parent>)

  /** A fetched page's links in document order; `None` when the fetch or
      the parse raised. */
  type Page = Option<seq<Link>>

  /* ---------------------------------------------------------------- */
  /* find_career_page                                                  */
  /* ---------------------------------------------------------------- */

  const CareerIndicators: seq<string> := ["career", "jobs", "join-us", "opportunities", "work with us"]

  /** The link's lower-cased `href` or lower-cased text contains an
      indicator. */
  predicate IsCareerLink(l: Link) {
    exists k | k in CareerIndicators :: Contains(Lower(l.href), k) || Contains(Lower(l.text), k)
  }

  /** The test looks at lower-cased `href` and text only, so it ignores
      their letter case. */
  lemma CareerLinkIgnoresCase(l: Link)
    ensures IsCareerLink(l) <==> IsCareerLink(Link(Lower(l.href), Lower(l.text), l.parent))
  {
    LowerIdempotent(l.href);
    LowerIdempotent(l.text);
  }

  /** The index of the first career link at or after `from`. */
  function FirstCareerLink(links: seq<Link>, from: nat): (r: Option<nat>)
    ensures r.Some? ==> from <= r.value < |links| && IsCareerLink(links[r.value])
    ensures r.Some? ==> forall j :: from <= j < r.value ==> !IsCareerLink(links[j])
    ensures r.None? <==> forall j :: from <= j < |links| ==> !IsCareerLink(links[j])
    decreases |links| - from
  {
    if from >= |links| then None
    else if IsCareerLink(links[from]) then Some(from)
    else FirstCareerLink(links, from + 1)
  }

  /** `links[i]` is the first career link of `links`. */
  predicate FirstCareerAt(links: seq<Link>, i: int) {
    0 <= i < |links| && IsCareerLink(links[i]) && forall j :: 0 <= j < i ==> !IsCareerLink(links[j])
  }

  /** `find_career_page`: the first link in document order whose `href` or
      text names a career page, resolved against the base URL; `None` when
      no link qualifies or the page could not be fetched. */
  function FindCareerPage(baseUrl: string, page: Page, join: (string, string) -> string): (r: Option<string>)
    ensures page.None? ==> r.None?
    ensures page.Some? ==> (r.Some? <==> exists i | 0 <= i < |page.value| :: IsCareerLink(page.value[i]))
    ensures page.Some? && r.Some? ==>
      exists i | 0 <= i < |page.value| :: FirstCareerAt(page.value, i) && r.value == join(baseUrl, page.value[i].href)
  {
    match page
    case None => None
    case Some(links) =>
      match FirstCareerLink(links, 0)
      case None => None
      case Some(i) =>
        assert FirstCareerAt(links, i);
        Some(join(baseUrl, links[i].href))
  }

  /** Only one link can be the first career link. */
  lemma FirstCareerAtUnique(links: seq<Link>, i: int, j: int)
    requires FirstCareerAt(links, i) && FirstCareerAt(links, j)
    ensures i == j
  {
  }

  /** The career page is the one named by the first career link. */
  lemma CareerPageAtFirst(baseUrl: string, links: seq<Link>, i: int, join: (string, string) -> string)
    requires FirstCareerAt(links, i)
    ensures FindCareerPage(baseUrl, Some(links), join) == Some(join(baseUrl, links[i].href))
  {
    var j := FirstCareerLink(links, 0).value;
    FirstCareerAtUnique(links, i, j);
  }

  /** Once some link of `a` names a career page, links after `a` are never
      looked at. */
  lemma CareerPageIgnoresLaterLinks(baseUrl: string, a: seq<Link>, b: seq<Link>, join: (string, string) -> string)
    requires exists i | 0 <= i < |a| :: IsCareerLink(a[i])
    ensures FindCareerPage(baseUrl, Some(a + b), join) == FindCareerPage(baseUrl, Some(a), join)
  {
    var i := FirstCareerLink(a, 0).value;
    CareerPageAtFirst(baseUrl, a, i, join);
    FirstCareerInPrefix(a, b, i);
    CareerPageAtFirst(baseUrl, a + b, i, join);
  }

  lemma FirstCareerInPrefix(a: seq<Link>, b: seq<Link>, i: int)
    requires FirstCareerAt(a, i)
    ensures FirstCareerAt(a + b, i) && (a + b)[i] == a[i]
  {
    forall j | 0 <= j < i
      ensures !IsCareerLink((a + b)[j])
    {
      assert (a + b)[j] == a[j];
    }
  }

  /** Links that name no career page, placed in front, change nothing. */
  lemma CareerPageSkipsOtherLinks(baseUrl: string, a: seq<Link>, b: seq<Link>, join: (string, string) -> string)
    requires forall j :: 0 <= j < |a| ==> !IsCareerLink(a[j])
    ensures FindCareerPage(baseUrl, Some(a + b), join) == FindCareerPage(baseUrl, Some(b), join)
  {
    match FirstCareerLink(b, 0)
    case Some(i) =>
      CareerPageAtFirst(baseUrl, b, i, join);
      FirstCareerAfterOthers(a, b, i);
      CareerPageAtFirst(baseUrl, a + b, |a| + i, join);
    case None =>
      NoCareerAfterOthers(a, b);
  }

  lemma FirstCareerAfterOthers(a: seq<Link>, b: seq<Link>, i: int)
    requires forall j :: 0 <= j < |a| ==> !IsCareerLink(a[j])
    requires FirstCareerAt(b, i)
    ensures FirstCareerAt(a + b, |a| + i) && (a + b)[|a| + i] == b[i]
  {
    forall j | 0 <= j < |a| + i
      ensures !IsCareerLink((a + b)[j])
    {
      if j < |a| {
        assert (a + b)[j] == a[j];
      } else {
        assert (a + b)[j] == b[j - |a|];
      }
    }
  }

  lemma NoCareerAfterOthers(a: seq<Link>, b: seq<Link>)
    requires forall j :: 0 <= j < |a| ==> !IsCareerLink(a[j])
    requires forall j :: 0 <= j < |b| ==> !IsCareerLink(b[j])
    ensures forall j :: 0 <= j < |a + b| ==> !IsCareerLink((a + b)[j])
  {
    forall j | 0 <= j < |a + b|
      ensures !IsCareerLink((a + b)[j])
    {
      if j < |a| {
        assert (a + b)[j] == a[j];
      } else {
        assert (a + b)[j] == b[j - |a|];
      }
    }
  }

  /* ---------------------------------------------------------------- */
  /* The posted date in scrape_jobs_from_portal                       */
  /* ---------------------------------------------------------------- */

  const DateIndicators: seq<string> := ["posted", "date", "listed", "open"]

  /** The sentinel for "no posted date found". */
  const NotAvailable: string := "N/A"

  predicate MentionsDate(context: string) {
    exists k | k in DateIndicators :: Contains(context, k)
  }

  /** The posted date of a job link, read off the link's parent (see
      `PostedDatePriority`). */
  function PostedDate(parent: Option<Parent>): string {
    match parent
    case None => NotAvailable
    case Some(p) =>
      match p.time
      case Some(t) =>
        if t.datetime.Some? && t.datetime.value != "" then t.datetime.value else Strip(t.text)
      case None =>
        var context := Lower(p.text);
        if MentionsDate(context) then context else NotAvailable
  }

  /** The posted date, in order of preference: the non-empty `datetime`
      attribute of the parent's `<time>` element; else that element's
      stripped text; with no `<time>` element, the whole lower-cased parent
      text when it mentions a date word; else "N/A". The last two cannot be
      confused: lower-cased text is never "N/A". */
  lemma PostedDatePriority(parent: Option<Parent>)
    ensures parent.None? ==> PostedDate(parent) == NotAvailable
    ensures parent.Some? && parent.value.time.Some? ==>
      var t := parent.value.time.value;
      if t.datetime.Some? && t.datetime.value != "" then PostedDate(parent) == t.datetime.value
      else PostedDate(parent) == Strip(t.text)
    ensures parent.Some? && parent.value.time.None? ==>
      (PostedDate(parent) == Lower(parent.value.text) <==> MentionsDate(Lower(parent.value.text)))
    ensures parent.Some? && parent.value.time.None? ==>
      (PostedDate(parent) == NotAvailable <==> !MentionsDate(Lower(parent.value.text)))
  {
    if parent.Some? {
      LowerNotSentinel(parent.value.text);
    }
  }

  /** Lower-cased text is never the sentinel "N/A", so the sentinel and the
      parent text cannot be mistaken for each other. */
  lemma LowerNotSentinel(s: string)
    ensures Lower(s) != NotAvailable
  {
    if |Lower(s)| == |NotAvailable| {
      assert Lower(s)[0] == LowerChar(s[0]) != 'N';
    }
  }

  /** With a `<time>` element present, the parent's own text plays no
      part in the posted date. */
  lemma PostedDateTimeTagWins(t: TimeTag, text1: string, text2: string)
    ensures PostedDate(Some(Parent(Some(t), text1))) == PostedDate(Some(Parent(Some(t), text2)))
  {
  }

  /* ---------------------------------------------------------------- */
  /* scrape_jobs_from_portal                                           */
  /* ---------------------------------------------------------------- */

  /** One row of the "MatchedJobs" sheet. */
  datatype JobPosting = JobPosting(company: string, title: string, link: string, posted: string, careerPage: string)

  /** A link is a job link when its stripped text is data-related. */
  predicate IsJobLink(l: Link) {
    IsDataRelated(Strip(l.text))
  }

  /** The job URL: the `href` itself when it starts with "http", else the
      `href` resolved against the career page. */
  function JobUrl(pageUrl: string, href: string, join: (string, string) -> string): string {
    if StartsWith(href, "http") then href else join(pageUrl, href)
  }

  /** An absolute `href` is kept whatever the career page and `urljoin`. */
  lemma JobUrlAbsolute(p1: string, p2: string, href: string, j1: (string, string) -> string, j2: (string, string) -> string)
    requires StartsWith(href, "http")
    ensures JobUrl(p1, href, j1) == JobUrl(p2, href, j2) == href
  {
  }

  /** The posting of one job link: its company, the stripped link text as
      title, the job URL, the posted date and the career page. */
  function PostingFor(company: string, pageUrl: string, l: Link, join: (string, string) -> string): (p: JobPosting)
    ensures p.company == company && p.careerPage == pageUrl
    ensures p.title == Strip(l.text) && IsStripped(p.title)
    ensures StartsWith(l.href, "http") ==> p.link == l.href
    ensures !StartsWith(l.href, "http") ==> p.link == join(pageUrl, l.href)
    ensures p.posted == PostedDate(l.parent)
  {
    JobPosting(company, Strip(l.text), JobUrl(pageUrl, l.href, join), PostedDate(l.parent), pageUrl)
  }

  /** The postings of a career page's links: one per job link, in document
      order, and nothing else. */
  function Postings(company: string, pageUrl: string, links: seq<Link>, join: (string, string) -> string)
    : (r: seq<JobPosting>)
    ensures |r| <= |links|
    ensures forall l | l in links && IsJobLink(l) :: PostingFor(company, pageUrl, l, join) in r
    ensures forall p | p in r :: exists l | l in links :: IsJobLink(l) && p == PostingFor(company, pageUrl, l, join)
    ensures r == [] <==> forall l | l in links :: !IsJobLink(l)
  {
    var make := l => PostingFor(company, pageUrl, l, join);
    assert forall l :: make(l) == PostingFor(company, pageUrl, l, join);
    FilterMap(links, IsJobLink, make)
  }

  /** `scrape_jobs_from_portal`: no postings when the page could not be
      fetched or parsed. */
  function ScrapeJobsFromPortal(company: string, url: string, page: Page, join: (string, string) -> string)
    : (r: seq<JobPosting>)
    ensures page.None? ==> r == []
    ensures page.Some? ==> (r == [] <==> forall l | l in page.value :: !IsJobLink(l))
    ensures forall p | p in r :: p.company == company && p.careerPage == url && IsDataRelated(p.title)
  {
    match page
    case None => []
    case Some(links) => Postings(company, url, links, join)
  }

  /* ---------------------------------------------------------------- */
  /* The main loop: matched jobs and companies with no jobs           */
  /* ---------------------------------------------------------------- */

  /** One row of the "NoJobsFound" sheet. */
  datatype NoJobsEntry = NoJobsEntry(company: string, website: string, careerPage: string)

  const NotFound: string := "Not Found"

  /** What the outside world answers: the page behind a URL, and `urljoin`. */
  datatype Env = Env(fetch: string -> Page, join: (string, string) -> string)

  /** Where a row ends up. */
  datatype Placement = Skipped | Matched(jobs: seq<JobPosting>) | Unmatched(entry: NoJobsEntry)

  /** The career page of a website, as `find_career_page` returns it. */
  function CareerPageOf(website: string, env: Env): Option<string> {
    FindCareerPage(website, env.fetch(website), env.join)
  }

  /** Python's truthiness of the career page: present and not empty. */
  predicate Found(career: Option<string>) {
    career.Some? && career.value != ""
  }

  /** The postings of a found career page. */
  function JobsAt(company: string, career: string, env: Env): seq<JobPosting> {
    ScrapeJobsFromPortal(company, career, env.fetch(career), env.join)
  }

  /** A row whose website is present, whose career page is found and whose
      career page yields at least one job. */
  predicate HasJobs(row: CompanyRow, env: Env) {
    var site := FormatUrl(row.website);
    site.Some? && Found(CareerPageOf(site.value, env))
    && JobsAt(row.company, CareerPageOf(site.value, env).value, env) != []
  }

  /** The body of the main loop for one row (after `format_url`): rows with
      no website are skipped; a row whose career page is found and yields
      jobs contributes those jobs; every other row contributes one
      "no jobs" entry naming the career page, or "Not Found". */
  function Place(row: CompanyRow, env: Env): (r: Placement)
    ensures r.Skipped? <==> FormatUrl(row.website).None?
    ensures r.Matched? <==> HasJobs(row, env)
    ensures r.Matched? ==>
      r.jobs == JobsAt(row.company, CareerPageOf(FormatUrl(row.website).value, env).value, env)
    ensures r.Unmatched? ==>
      && r.entry.company == row.company
      && FormatUrl(row.website) == Some(r.entry.website)
      && HasScheme(r.entry.website)
      && var career := CareerPageOf(r.entry.website, env);
         if Found(career) then r.entry.careerPage == career.value else r.entry.careerPage == NotFound
  {
    match FormatUrl(row.website)
    case None => Skipped
    case Some(site) =>
      var career := CareerPageOf(site, env);
      if Found(career) then
        var jobs := JobsAt(row.company, career.value, env);
        if jobs != [] then Matched(jobs)
        else Unmatched(NoJobsEntry(row.company, site, career.value))
      else Unmatched(NoJobsEntry(row.company, site, NotFound))
  }

  datatype BatchResult = BatchResult(allJobs: seq<JobPosting>, noJobs: seq<NoJobsEntry>)

  /** The placements of the rows, in order. */
  function PlaceAll(rows: seq<CompanyRow>, env: Env): seq<Placement> {
    seq(|rows|, i requires 0 <= i < |rows| => Place(rows[i], env))
  }

  /** Each row is placed on its own: placing `a + b` places `a`, then `b`. */
  lemma PlaceAllAppend(a: seq<CompanyRow>, b: seq<CompanyRow>, env: Env)
    ensures PlaceAll(a + b, env) == PlaceAll(a, env) + PlaceAll(b, env)
  {
    var ab, pa, pb := PlaceAll(a + b, env), PlaceAll(a, env), PlaceAll(b, env);
    assert |ab| == |pa + pb|;
    forall i | 0 <= i < |ab|
      ensures ab[i] == (pa + pb)[i]
    {
      if i < |a| {
        assert (a + b)[i] == a[i];
        assert ab[i] == Place(a[i], env) == pa[i];
      } else {
        assert (a + b)[i] == b[i - |a|];
        assert ab[i] == Place(b[i - |a|], env) == pb[i - |a|];
      }
    }
  }

  /** Appending the placements in order to `all_jobs` and
      `no_job_companies`. */
  function Collect(ps: seq<Placement>): (r: BatchResult)
    ensures |r.noJobs| <= |ps|
    ensures forall e | e in r.noJobs :: Unmatched(e) in ps
    ensures forall p | p in r.allJobs :: exists q | q in ps :: q.Matched? && p in q.jobs
    ensures forall q, p | q in ps && q.Matched? && p in q.jobs :: p in r.allJobs
    ensures forall e | Unmatched(e) in ps :: e in r.noJobs
    decreases |ps|
  {
    if |ps| == 0 then BatchResult([], [])
    else
      var prev := Collect(ps[..|ps| - 1]);
      assert ps == ps[..|ps| - 1] + [ps[|ps| - 1]];
      match ps[|ps| - 1]
      case Skipped => prev
      case Matched(jobs) => BatchResult(prev.allJobs + jobs, prev.noJobs)
      case Unmatched(entry) => BatchResult(prev.allJobs, prev.noJobs + [entry])
  }

  /** One more placement adds its jobs, its entry or nothing at the end. */
  lemma CollectLast(ps: seq<Placement>, q: Placement)
    ensures Collect(ps + [q]) == match q
      case Skipped => Collect(ps)
      case Matched(jobs) => BatchResult(Collect(ps).allJobs + jobs, Collect(ps).noJobs)
      case Unmatched(e) => BatchResult(Collect(ps).allJobs, Collect(ps).noJobs + [e])
  {
    assert (ps + [q])[..|ps + [q]| - 1] == ps;
    assert (ps + [q])[|ps + [q]| - 1] == q;
  }

  lemma {:induction false} CollectAppend(a: seq<Placement>, b: seq<Placement>)
    ensures Collect(a + b) ==
      BatchResult(Collect(a).allJobs + Collect(b).allJobs, Collect(a).noJobs + Collect(b).noJobs)
    decreases |b|
  {
    if |b| == 0 {
      assert a + b == a;
    } else {
      var b' := b[..|b| - 1];
      assert (a + b)[..|a + b| - 1] == a + b';
      assert (a + b)[|a + b| - 1] == b[|b| - 1];
      CollectAppend(a, b');
    }
  }

  /** The main loop over the rows in order, filling `all_jobs` and
      `no_job_companies`: every "no jobs" entry and every matched job comes
      from an input row with a website. */
  function Batch(rows: seq<CompanyRow>, env: Env): (r: BatchResult)
    ensures |r.noJobs| <= |rows|
    ensures forall e | e in r.noJobs ::
      HasScheme(e.website) && exists row | row in rows :: row.company == e.company && FormatUrl(row.website) == Some(e.website)
    ensures forall p | p in r.allJobs ::
      IsDataRelated(p.title) && exists row | row in rows :: row.company == p.company && FormatUrl(row.website).Some?
  {
    var ps := PlaceAll(rows, env);
    BatchEntriesFromRows(rows, env);
    Collect(ps)
  }

  /** Nothing is dropped: every job of a row with jobs is in `all_jobs`,
      and every row's "no jobs" entry is in `no_job_companies`. */
  lemma BatchKeepsEveryRow(rows: seq<CompanyRow>, env: Env, i: int)
    requires 0 <= i < |rows|
    ensures Place(rows[i], env).Matched? ==>
      forall p | p in Place(rows[i], env).jobs :: p in Batch(rows, env).allJobs
    ensures Place(rows[i], env).Unmatched? ==> Place(rows[i], env).entry in Batch(rows, env).noJobs
  {
    var ps := PlaceAll(rows, env);
    var q := Place(rows[i], env);
    assert ps[i] == q && q in ps;
    assert Batch(rows, env) == Collect(ps);
  }

  lemma BatchEntriesFromRows(rows: seq<CompanyRow>, env: Env)
    ensures forall e | Unmatched(e) in PlaceAll(rows, env) ::
      HasScheme(e.website) && exists row | row in rows :: row.company == e.company && FormatUrl(row.website) == Some(e.website)
    ensures forall q, p | q in PlaceAll(rows, env) && q.Matched? && p in q.jobs ::
      IsDataRelated(p.title) && exists row | row in rows :: row.company == p.company && FormatUrl(row.website).Some?
  {
    var ps := PlaceAll(rows, env);
    forall e | Unmatched(e) in ps
      ensures HasScheme(e.website)
      ensures exists row | row in rows :: row.company == e.company && FormatUrl(row.website) == Some(e.website)
    {
      var i :| 0 <= i < |ps| && ps[i] == Unmatched(e);
      assert rows[i] in rows;
    }
    forall q, p | q in ps && q.Matched? && p in q.jobs
      ensures IsDataRelated(p.title)
      ensures exists row | row in rows :: row.company == p.company && FormatUrl(row.website).Some?
    {
      var i :| 0 <= i < |ps| && ps[i] == q;
      assert rows[i] in rows;
    }
  }

  /** Rows are handled independently: the batch of `a + b` is the batch of
      `a` followed by the batch of `b`. */
  lemma BatchAppend(a: seq<CompanyRow>, b: seq<CompanyRow>, env: Env)
    ensures Batch(a + b, env) ==
      BatchResult(Batch(a, env).allJobs + Batch(b, env).allJobs, Batch(a, env).noJobs + Batch(b, env).noJobs)
  {
    PlaceAllAppend(a, b, env);
    CollectAppend(PlaceAll(a, env), PlaceAll(b, env));
  }

  /** One row on its own: its jobs, its "no jobs" entry or nothing. With
      `BatchAppend` this fixes the batch of any list of rows. */
  lemma BatchOne(row: CompanyRow, env: Env)
    ensures Batch([row], env) == match Place(row, env)
      case Skipped => BatchResult([], [])
      case Matched(jobs) => BatchResult(jobs, [])
      case Unmatched(e) => BatchResult([], [e])
  {
    assert PlaceAll([row], env) == [] + [Place(row, env)];
    CollectLast([], Place(row, env));
  }

  /** Rows with a website. */
  function WithWebsite(rows: seq<CompanyRow>): nat {
    if |rows| == 0 then 0
    else WithWebsite(rows[..|rows| - 1]) + (if FormatUrl(rows[|rows| - 1].website).Some? then 1 else 0)
  }

  /** Rows whose career page is found and has at least one job. */
  function WithJobs(rows: seq<CompanyRow>, env: Env): nat {
    if |rows| == 0 then 0
    else WithJobs(rows[..|rows| - 1], env) + (if HasJobs(rows[|rows| - 1], env) then 1 else 0)
  }

  /** Every row with a website lands in exactly one place: either its jobs
      are among the matched jobs, or it has one "no jobs" entry. So the
      "no jobs" entries and the rows with jobs together number the rows
      with a website, and each row with jobs adds at least one posting. */
  lemma {:induction false} BatchAccountsForEveryRow(rows: seq<CompanyRow>, env: Env)
    ensures |Batch(rows, env).noJobs| + WithJobs(rows, env) == WithWebsite(rows)
    ensures |Batch(rows, env).allJobs| >= WithJobs(rows, env)
    decreases |rows|
  {
    if |rows| > 0 {
      var init := rows[..|rows| - 1];
      var last := rows[|rows| - 1];
      BatchAccountsForEveryRow(init, env);
      BatchOneCounts(last, env);
      var all, one := Batch(rows, env), Batch([last], env);
      assert |all.noJobs| == |Batch(init, env).noJobs| + |one.noJobs|
          && |all.allJobs| == |Batch(init, env).allJobs| + |one.allJobs| by {
        assert rows == init + [last];
        BatchAppend(init, [last], env);
      }
    }
  }

  /** `BatchAccountsForEveryRow` for a single row. */
  lemma BatchOneCounts(row: CompanyRow, env: Env)
    ensures |Batch([row], env).noJobs| + (if HasJobs(row, env) then 1 else 0)
         == (if FormatUrl(row.website).Some? then 1 else 0)
    ensures |Batch([row], env).allJobs| >= (if HasJobs(row, env) then 1 else 0)
  {
    BatchOne(row, env);
  }
}
