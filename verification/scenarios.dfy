/** Worked cases of both scripts' rules on concrete inputs: the two title
    classifiers side by side, website clean-up, and a one-company batch of
    scrape.py from start to finish. */
module Scenarios {

  import opened Wrappers
  import opened Strings
  import opened Table
  import Scraper
  import opened Scrape

  /* ---------------------------------------------------------------- */
  /* The two classifiers                                               */
  /* ---------------------------------------------------------------- */

  /** The substring classifier of scraper.py accepts "Databases101" (it
      contains "data"); the whole-word classifier of scrape.py rejects it. */
  lemma ClassifiersDisagree()
    ensures Scraper.IsDataRelated("Databases101")
    ensures !IsItJob("Databases101")
  {
    var s := Lower("Databases101");
    assert s[0..4] == "data";
    assert OccursAt(s, "data", 0);
    assert Contains(s, "data") && "data" in Scraper.Keywords;
    DatabasesIsNotItJob();
  }

  /** Substring matching also accepts titles that merely contain a short
      keyword: "Mobile Developer" is data-related through "bi". */
  lemma MobileDeveloperIsDataRelated()
    ensures Scraper.IsDataRelated("Mobile Developer")
  {
    var s := Lower("Mobile Developer");
    assert s[2] == 'b' && s[3] == 'i';
    assert s[2..4] == "bi";
    assert OccursAt(s, "bi", 2);
    assert Contains(s, "bi") && "bi" in Scraper.Keywords;
  }

  /* ---------------------------------------------------------------- */
  /* Website clean-up                                                  */
  /* ---------------------------------------------------------------- */

  /** Surrounding blanks go and a missing scheme becomes `https://`. (The
      cell text is a parameter fixed by `requires` rather than a literal in
      the `ensures`, so that the verifier does not unfold `Strip` on it.) */
  lemma FormatUrlAddsScheme(raw: string)
    requires raw == "  acme.example "
    ensures Scraper.FormatUrl(Some(raw)) == Some("https://acme.example")
  {
    var u := "acme.example";
    AcmeStripped(raw, u);
    assert u[..7][0] == 'a' && u[..8][0] == 'a';
    SchemeAdded(raw, u);
    assert "https://" + u == "https://acme.example";
  }

  /** The cell text of `FormatUrlAddsScheme` strips to the bare website. */
  lemma AcmeStripped(raw: string, u: string)
    requires raw == "  acme.example " && u == "acme.example"
    ensures Strip(raw) == u
  {
    assert PaddedAt(raw, u, 2);
    StripUnique(raw, u, 2);
  }

  /** A cell whose stripped text is a present website without a scheme
      gets `https://` in front of that text. */
  lemma SchemeAdded(raw: string, u: string)
    requires Strip(raw) == u && u !in Scraper.AbsentMarkers
    requires !StartsWith(u, "http://") && !StartsWith(u, "https://")
    ensures Scraper.FormatUrl(Some(raw)) == Some("https://" + u)
  {
  }

  /** A cell reading " nan " counts as no website. */
  lemma FormatUrlNan()
    ensures Scraper.FormatUrl(Some(" nan ")) == None
  {
    assert PaddedAt(" nan ", "nan", 1);
    StripUnique(" nan ", "nan", 1);
  }

  /** A website that already has a scheme is kept as it is. */
  lemma FormatUrlKeepsScheme()
    ensures Scraper.FormatUrl(Some("http://acme.example")) == Some("http://acme.example")
  {
    StripStripped("http://acme.example");
    assert "http://acme.example"[..7] == "http://";
  }

  /** The scheme test is case-sensitive: an upper-case scheme is not
      recognised and gets a second one in front. (The cell text is a
      parameter for the same reason as in `FormatUrlAddsScheme`.) */
  lemma FormatUrlUpperCaseScheme(raw: string)
    requires raw == "HTTP://acme.example"
    ensures Scraper.FormatUrl(Some(raw)) == Some("https://" + raw)
  {
    assert raw[0] == 'H' && raw[|raw| - 1] == 'e';
    StripStripped(raw);
    assert raw[..7][0] == 'H' && raw[..8][0] == 'H';
    SchemeAdded(raw, raw);
  }

  /* ---------------------------------------------------------------- */
  /* "Office Lunch Menu" is not an IT title                           */
  /* ---------------------------------------------------------------- */

  lemma OfficeMachineLearning(i: int)
    ensures !OccursAt("office lunch menu", "machine learning", i)
  {
    var s := "office lunch menu";
    if 0 <= i && i + 16 <= |s| {
      assert s[i..i + 16][0] == s[i];
      assert i == 0 || i == 1;
      assert s[i] != 'm';
    }
  }

  /** A single-word pattern matches "office lunch menu" as a whole word
      only if it is one of its three words. */
  lemma OfficeWords(k: string, i: int)
    requires |k| > 0 && ' ' !in k
    requires WordAt("office lunch menu", k, i)
    ensures k == "office" || k == "lunch" || k == "menu"
  {
    SplitWords("office lunch menu", "office", "lunch menu", k, i);
    if WordAt("office", k, i) {
      SolidWord("office", k, i);
    } else {
      LunchMenuWords(k, i - 7);
    }
  }

  lemma LunchMenuWords(k: string, i: int)
    requires |k| > 0 && ' ' !in k
    requires WordAt("lunch menu", k, i)
    ensures k == "lunch" || k == "menu"
  {
    SplitWords("lunch menu", "lunch", "menu", k, i);
    if WordAt("lunch", k, i) {
      SolidWord("lunch", k, i);
    } else {
      SolidWord("menu", k, i - 6);
    }
  }

  /** `WordInSplit` at a blank between two given parts of `s`. */
  lemma SplitWords(s: string, a: string, b: string, k: string, i: int)
    requires s == a + " " + b
    requires |k| > 0 && ' ' !in k
    requires WordAt(s, k, i)
    ensures WordAt(a, k, i) || WordAt(b, k, i - |a| - 1)
  {
    assert s == a + [' '] + b;
    WordInSplit(a, ' ', b, k, i);
  }

  /** `WordInSolidString` for a lower-case word. */
  lemma SolidWord(s: string, k: string, i: int)
    requires forall j | 0 <= j < |s| :: 'a' <= s[j] <= 'z'
    requires WordAt(s, k, i)
    ensures k == s
  {
    WordInSolidString(s, k, i);
  }

  lemma OfficeKeyword(k: string, i: int)
    requires k in ItKeywords
    ensures !WordAt("office lunch menu", k, i)
  {
    if k == "machine learning" {
      OfficeMachineLearning(i);
    } else {
      ItKeywordsOneWord();
      OfficeNotKeywords();
      if WordAt("office lunch menu", k, i) {
        OfficeWords(k, i);
      }
    }
  }

  lemma OfficeNotKeywords()
    ensures "office" !in ItKeywords && "lunch" !in ItKeywords && "menu" !in ItKeywords
  {
    NotKeyword("office");
    NotKeyword("lunch");
    NotKeyword("menu");
  }

  /** A word that differs from every keyword in length or first letter is
      not a keyword. (Stated this way so that the verifier compares two
      characters per keyword rather than whole strings.) */
  lemma NotKeyword(w: string)
    requires forall i | 0 <= i < |ItKeywords| :: |ItKeywords[i]| != |w| || ItKeywords[i][0] != w[0]
    ensures w !in ItKeywords
  {
  }

  lemma OfficeLunchMenuIsNotItJob()
    ensures !IsItJob("Office Lunch Menu")
  {
    assert Lower("Office Lunch Menu") == "office lunch menu";
    forall k, i | k in ItKeywords
      ensures !WordAt("office lunch menu", k, i)
    {
      OfficeKeyword(k, i);
    }
    ItJobIsWholeWordMatch("Office Lunch Menu");
  }

  lemma SeniorDataAnalystIsItJob()
    ensures IsItJob("Senior Data Analyst")
  {
    var t := "Senior Data Analyst";
    var s := Lower(t);
    assert t[6] == ' ' && t[7] == 'D' && t[8] == 'a' && t[9] == 't' && t[10] == 'a' && t[11] == ' ';
    assert s[6] == ' ' && s[7] == 'd' && s[8] == 'a' && s[9] == 't' && s[10] == 'a' && s[11] == ' ';
    assert s[7..11] == "data";
    assert WordAt(s, "data", 7);
    assert Search(s, "data", 0).Some?;
    assert "data" in ItKeywords;
  }

  /* ---------------------------------------------------------------- */
  /* A one-company batch of scrape.py                                  */
  /* ---------------------------------------------------------------- */

  const AcmePage: seq<string> := ["Senior Data Analyst", "Office Lunch Menu"]

  const AcmeSite: string := "https://acme.example"

  /** The plain fetch of `AcmeSite` returns `AcmePage`; every other fetch
      fails, among them any of a URL without a scheme. */
  function AcmeFetch(f: Fetcher, url: string): Option<seq<string>> {
    if f == Static && url == AcmeSite then Some(AcmePage) else None
  }

  /** Of the two tag texts only the first is a candidate. */
  lemma AcmeCandidates()
    ensures Candidates(AcmePage) == ["Senior Data Analyst"]
  {
    SeniorDataAnalystIsItJob();
    OfficeLunchMenuIsNotItJob();
    assert AcmePage[..1] == ["Senior Data Analyst"];
    assert AcmePage[..1][..0] == [];
    assert Candidates(AcmePage[..1]) == ["Senior Data Analyst"];
  }

  /** The plain fetch finds the one title, so the browser is never started. */
  lemma AcmeRun()
    ensures ScrapeWithFallback(AcmeSite, AcmeFetch) == ScrapeRun(["Senior Data Analyst"], [Static])
  {
    assert AcmeFetch(Static, AcmeSite) == Some(AcmePage);
    AcmeCandidates();
  }

  /** The row {Acme, https://acme.example} whose page holds the tag texts
      "Senior Data Analyst" and "Office Lunch Menu" yields exactly one
      result row, for "Senior Data Analyst", and the browser is never
      started. */
  lemma AcmeBatch(batch: string)
    ensures ScrapeWithFallback(AcmeSite, AcmeFetch).fetches == [Static]
    ensures BatchResults([CompanyRow("Acme", Some(AcmeSite))], batch, AcmeFetch)
         == [ResultRow("Acme", "Senior Data Analyst", AcmeSite, batch)]
  {
    AcmeRun();
    var row := CompanyRow("Acme", Some(AcmeSite));
    assert HasWebsite(row);
    var r := RowResults(row, batch, AcmeFetch);
    assert r == TitleRows("Acme", AcmeSite, batch, ["Senior Data Analyst"]);
    assert r == [ResultRow("Acme", "Senior Data Analyst", AcmeSite, batch)];
    var rows := [row];
    BatchResultsAppend([], rows, batch, AcmeFetch);
    assert rows == [] + rows;
  }

  /** The same company with the bare website "acme.example", as a sheet may
      well hold it: scrape.py does not clean websites, both fetches fail,
      and the batch yields no result row. */
  lemma AcmeBareWebsite(batch: string)
    ensures BatchResults([CompanyRow("Acme", Some("acme.example"))], batch, AcmeFetch) == []
  {
    assert RefusesBareHosts(AcmeFetch) by {
      forall f: Fetcher, url: string | ':' !in url
        ensures AcmeFetch(f, url).None?
      {
        assert AcmeSite[5] == ':';
      }
    }
    var row := CompanyRow("Acme", Some("acme.example"));
    BareWebsiteYieldsNothing(row, batch, AcmeFetch);
  }
}
