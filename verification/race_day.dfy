/** The race-day scraper: it builds the page URL (or replays stored HTML),
    finds the race containers of the page, and turns every table row of every
    race into a record carrying the race-level fields. */
module RaceDay {
  import opened Results
  import opened Digits
  import opened PyFormat
  import opened Calendar
  import opened RaceUrl
  import opened RaceHeading

  /** One table row of a race, handed to the row scraper unread. */
  datatype Row = Row(markup: string)

  /** A fixture or result record. The first five fields belong to the race and
      are written by the race-day scraper; the others come from the row. */
  datatype Record = Record(
    raceId: Option<nat>,
    raceDate: Option<Date>,
    trackType: Option<string>,
    distance: Option<nat>,
    city: Option<string>,
    horseId: string,
    horseName: string,
    horseAge: string,
    horseFatherId: string,
    horseMotherId: string,
    jockeyId: string,
    ownerId: string,
    trainerId: string,
    horseWeight: string,
    order: string,
    result: string,
    handicap: string,
    time: string)

  /** The values written over every record of one race. */
  datatype RaceFields = RaceFields(trackType: string, distance: nat, raceId: nat, city: string, date: Date)

  /** The two records agree on every field the row scraper fills. */
  predicate SameRowFields(a: Record, b: Record) {
    && a.horseId == b.horseId && a.horseName == b.horseName && a.horseAge == b.horseAge
    && a.horseFatherId == b.horseFatherId && a.horseMotherId == b.horseMotherId
    && a.jockeyId == b.jockeyId && a.ownerId == b.ownerId && a.trainerId == b.trainerId
    && a.horseWeight == b.horseWeight && a.order == b.order && a.result == b.result
    && a.handicap == b.handicap && a.time == b.time
  }

  /** `out` is `scraped` with the race-level fields set to `f`. */
  predicate Stamped(out: Record, scraped: Record, f: RaceFields) {
    && SameRowFields(out, scraped)
    && out.trackType == Some(f.trackType)
    && out.distance == Some(f.distance)
    && out.raceId == Some(f.raceId)
    && out.city == Some(f.city)
    && out.raceDate == Some(f.date)
  }

  /** Assigning the five race-level attributes of a scraped record. */
  function Stamp(scraped: Record, f: RaceFields): (r: Record)
    ensures Stamped(r, scraped, f)
  {
    scraped.(trackType := Some(f.trackType), distance := Some(f.distance), raceId := Some(f.raceId),
             city := Some(f.city), raceDate := Some(f.date))
  }

  /** Stamping is the only way to obtain a stamped record. */
  lemma StampedExactly(out: Record, scraped: Record, f: RaceFields)
    ensures Stamped(out, scraped, f) <==> out == Stamp(scraped, f)
  {
  }

  /** The record carries all its race-level fields. */
  predicate HasRaceFields(r: Record) {
    r.raceId.Some? && r.raceDate.Some? && r.trackType.Some? && r.distance.Some? && r.city.Some?
  }

  function FieldsOf(r: Record): (f: RaceFields)
    requires HasRaceFields(r)
  {
    RaceFields(r.trackType.value, r.distance.value, r.raceId.value, r.city.value, r.raceDate.value)
  }

  /** Overlaying a stored record's race fields on a freshly scraped row
      reproduces the stored record exactly when the two agree on the row fields. */
  lemma OverlayStored(stored: Record, scraped: Record)
    requires HasRaceFields(stored)
    ensures Stamp(scraped, FieldsOf(stored)) == stored <==> SameRowFields(stored, scraped)
  {
  }

  /** Stamping again replaces the race fields and keeps the row. */
  lemma Restamp(scraped: Record, f: RaceFields, g: RaceFields)
    ensures FieldsOf(Stamp(scraped, f)) == f
    ensures Stamp(Stamp(scraped, f), g) == Stamp(scraped, g)
  {
  }

  /** The `race-details` div of a race, holding the joined text of its
      `race-config` heading if the heading is there. */
  datatype Details = Details(config: Option<string>)

  /** One direct child div of the races container: its `id` attribute, its
      details div and the rows of its table body, each absent when the markup lacks it. */
  datatype RaceDiv = RaceDiv(id: Option<string>, details: Option<Details>, body: Option<seq<Row>>)

  /** A parsed page: each `races-panes` div, in document order, given by its direct child divs. */
  datatype Page = Page(panes: seq<seq<RaceDiv>>)

  /** The exceptions the scraper lets escape, named after their cause. */
  datatype ScrapeError =
    | UrlFormat(formatError: FormatError)  // `str.format` rejects the URL template
    | NoRacesPanes                         // `IndexError`: no `races-panes` div
    | InvalidDate(dateError: DateError)    // `ValueError` from the date constructor
    | MissingRaceId                        // `int(None)`
    | RaceIdNotInteger(id: string)         // `int(id)` raises `ValueError`
    | MissingRaceDetails                   // no `race-details` div
    | MissingRaceConfig                    // no `race-config` heading
    | MissingTrackType                     // `IndexError`: no blank line after the last comma
    | MissingTableBody                     // no `tbody`
    | DistanceNotInteger(text: string)     // `int(distance)` raises `ValueError`

  /** The errors that belong to a single race div. */
  predicate RaceError(e: ScrapeError) {
    !(e.UrlFormat? || e.NoRacesPanes? || e.InvalidDate?)
  }

  /** A scraper after construction. */
  datatype Scraper = Scraper(pageType: PageType, city: City, date: Date, html: string, url: string, raceDivs: seq<RaceDiv>)

  /** The race divs of a page: the direct children of the first `races-panes` div. */
  function RaceDivs(page: Page): (r: Result<seq<RaceDiv>, ScrapeError>)
    ensures r.Err? <==> |page.panes| == 0
    ensures r.Err? ==> r.error == NoRacesPanes
    ensures r.Ok? ==> r.value == page.panes[0]
  {
    if |page.panes| == 0 then Err(NoRacesPanes) else Ok(page.panes[0])
  }

  /** Construction. With no HTML the URL is built and `fetch` downloads the
      page; otherwise the given HTML and URL are kept as they are. `parse`
      stands for the HTML parser. */
  function Init(pageType: PageType, city: City, date: Date, html: string, url: string,
                fetch: string -> string, parse: string -> Page): (r: Result<Scraper, ScrapeError>)
    ensures r.Ok? ==> r.value.pageType == pageType && r.value.city == city && r.value.date == date
    ensures r.Ok? ==> |parse(r.value.html).panes| > 0 && r.value.raceDivs == parse(r.value.html).panes[0]
    ensures |html| > 0 ==> (r.Ok? <==> |parse(html).panes| > 0)
    ensures |html| > 0 && r.Ok? ==> r.value.html == html && r.value.url == url
    ensures |html| == 0 && r.Ok? ==> BuildUrl(pageType, city, date) == Ok(r.value.url) && r.value.html == fetch(r.value.url)
    ensures |html| == 0 && BuildUrl(pageType, city, date).Err? ==> r == Err(UrlFormat(BuildUrl(pageType, city, date).error))
  {
    var source: (string, string) :-
      if |html| == 0 then
        var u :- BuildUrl(pageType, city, date).MapError(e => UrlFormat(e));
        Ok((fetch(u), u))
      else Ok((html, url));
    var divs :- RaceDivs(parse(source.0));
    Ok(Scraper(pageType, city, date, source.0, source.1, divs))
  }

  /** Without HTML the scraper fetches exactly the expected URL, and fails only
      when that page has no races container. */
  lemma InitFetches(pageType: PageType, city: City, date: Date, url: string,
                    fetch: string -> string, parse: string -> Page)
    requires BraceFree(city.name)
    ensures var r := Init(pageType, city, date, [], url, fetch, parse);
            var u := ExpectedUrl(pageType, city, date);
            && (r.Ok? <==> |parse(fetch(u)).panes| > 0)
            && (r.Err? ==> r.error == NoRacesPanes)
            && (r.Ok? ==> r.value.url == u && r.value.html == fetch(u))
  {
    BuildUrlShape(pageType, city, date);
  }

  /** Rebuilding a scraper from its stored HTML and URL gives the same scraper,
      whatever the network would now answer. */
  lemma Replay(pageType: PageType, city: City, date: Date, html: string, url: string,
               fetch: string -> string, later: string -> string, parse: string -> Page)
    requires Init(pageType, city, date, html, url, fetch, parse).Ok?
    ensures var s := Init(pageType, city, date, html, url, fetch, parse).value;
            |s.html| > 0 ==> Init(pageType, city, date, s.html, s.url, later, parse) == Ok(s)
  {
  }

  /** `from_date_values`: the date is built from its parts, then the scraper
      fetches its page. */
  function FromDateValues(pageType: PageType, city: City, year: int, month: int, day: int,
                          fetch: string -> string, parse: string -> Page): (r: Result<Scraper, ScrapeError>)
    ensures FromValues(year, month, day).Err? ==> r == Err(InvalidDate(FromValues(year, month, day).error))
    ensures r.Ok? ==> r.value.date.year == year && r.value.date.month == month && r.value.date.day == day
    ensures r.Ok? ==> BuildUrl(pageType, city, r.value.date) == Ok(r.value.url) && r.value.html == fetch(r.value.url)
  {
    var date :- FromValues(year, month, day).MapError(e => InvalidDate(e));
    Init(pageType, city, date, [], [], fetch, parse)
  }

  /** What one race div yields before any row is read. */
  datatype Race = Race(raceId: nat, config: RaceConfig, rows: seq<Row>)

  /** The race id, heading and rows of a race div, checked in the scraper's
      order: id, details div, heading, track type, table body. */
  function ReadRace(div: RaceDiv): (r: Result<Race, ScrapeError>)
    ensures r.Ok? <==> && div.id.Some? && ParseNat(div.id.value).Some?
                       && div.details.Some? && div.details.value.config.Some?
                       && ParseRaceConfig(div.details.value.config.value).Some?
                       && div.body.Some?
    ensures r.Ok? ==> && Some(r.value.raceId) == ParseNat(div.id.value)
                      && Some(r.value.config) == ParseRaceConfig(div.details.value.config.value)
                      && r.value.rows == div.body.value
    ensures div.id.None? ==> r == Err(MissingRaceId)
    ensures div.id.Some? && ParseNat(div.id.value).None? ==> r == Err(RaceIdNotInteger(div.id.value))
    ensures div.id.Some? && ParseNat(div.id.value).Some? && div.details.None? ==> r == Err(MissingRaceDetails)
    ensures r.Err? ==> RaceError(r.error)
  {
    if div.id.None? then Err(MissingRaceId)
    else
      var raceId := ParseNat(div.id.value);
      if raceId.None? then Err(RaceIdNotInteger(div.id.value))
      else if div.details.None? then Err(MissingRaceDetails)
      else if div.details.value.config.None? then Err(MissingRaceConfig)
      else
        var config := ParseRaceConfig(div.details.value.config.value);
        if config.None? then Err(MissingTrackType)
        else if div.body.None? then Err(MissingTableBody)
        else Ok(Race(raceId.value, config.value, div.body.value))
  }

  /** Why `get` stops at this race div, if it does: the div is malformed, or
      it has rows and its distance is not a number (the distance is read once
      per row, so a race without rows never fails on it). */
  function RaceFailure(div: RaceDiv): (r: Option<ScrapeError>)
    ensures r.Some? ==> RaceError(r.value)
  {
    match ReadRace(div)
    case Err(e) => Some(e)
    case Ok(race) =>
      if |race.rows| > 0 && ParseNat(race.config.distanceText).None?
      then Some(DistanceNotInteger(race.config.distanceText))
      else None
  }

  /** `out` is what `get` produces for a race div that does not fail: one
      record per row, in row order, each the row scraper's record stamped with
      the race's fields. */
  predicate RaceRecords(s: Scraper, rowScraper: (PageType, Row) -> Record, div: RaceDiv, out: seq<Record>)
    requires RaceFailure(div).None?
  {
    var race := ReadRace(div).value;
    && |out| == |race.rows|
    && forall k :: 0 <= k < |out| ==>
         Stamped(out[k], rowScraper(s.pageType, race.rows[k]),
                 FieldsFor(s, race, ParseNat(race.config.distanceText).value))
  }

  /** The race-level fields of a race of this scraper's page. */
  function FieldsFor(s: Scraper, race: Race, distance: nat): RaceFields {
    RaceFields(race.config.trackType, distance, race.raceId, s.city.name, s.date)
  }

  /** The records `get` produces for one race div, or why it stops there. */
  function RaceOutcome(s: Scraper, rowScraper: (PageType, Row) -> Record, div: RaceDiv): (r: Result<seq<Record>, ScrapeError>)
    ensures r.Err? <==> RaceFailure(div).Some?
    ensures r.Err? ==> RaceFailure(div) == Some(r.error)
  {
    var race :- ReadRace(div);
    var text := race.config.distanceText;
    if |race.rows| > 0 && ParseNat(text).None? then Err(DistanceNotInteger(text))
    else Ok(seq(|race.rows|, k requires 0 <= k < |race.rows| =>
                  Stamp(rowScraper(s.pageType, race.rows[k]), FieldsFor(s, race, ParseNat(text).value))))
  }

  /** A race that does not fail yields one stamped record per row. */
  lemma RaceOutcomeRecords(s: Scraper, rowScraper: (PageType, Row) -> Record, div: RaceDiv)
    requires RaceFailure(div).None?
    ensures RaceOutcome(s, rowScraper, div).Ok?
    ensures RaceRecords(s, rowScraper, div, RaceOutcome(s, rowScraper, div).value)
  {
  }

  /** The outer loop of `get` over a per-race outcome: the values of the divs
      in order, or the error of the first div that fails. */
  function Collect<T>(outcome: RaceDiv -> Result<T, ScrapeError>, divs: seq<RaceDiv>): (r: Result<seq<T>, ScrapeError>)
    ensures r.Ok? ==> |r.value| == |divs|
    decreases |divs|
  {
    if |divs| == 0 then Ok([])
    else
      var earlier :- Collect(outcome, divs[..|divs| - 1]);
      var last :- outcome(divs[|divs| - 1]);
      Ok(earlier + [last])
  }

  /** Collecting succeeds exactly when every div succeeds, and keeps each div's value in place. */
  lemma {:induction false} CollectOk<T>(outcome: RaceDiv -> Result<T, ScrapeError>, divs: seq<RaceDiv>)
    ensures Collect(outcome, divs).Ok? <==> forall i :: 0 <= i < |divs| ==> outcome(divs[i]).Ok?
    ensures Collect(outcome, divs).Ok? ==>
              forall i :: 0 <= i < |divs| ==> Collect(outcome, divs).value[i] == outcome(divs[i]).value
    decreases |divs|
  {
    if |divs| > 0 {
      var init := divs[..|divs| - 1];
      CollectOk(outcome, init);
      assert forall i :: 0 <= i < |init| ==> init[i] == divs[i];
    }
  }

  /** A failed collection reports the error of the first div that fails. */
  lemma {:induction false} CollectFirstError<T>(outcome: RaceDiv -> Result<T, ScrapeError>, divs: seq<RaceDiv>)
    requires Collect(outcome, divs).Err?
    ensures exists i :: && 0 <= i < |divs|
                        && outcome(divs[i]) == Err(Collect(outcome, divs).error)
                        && forall j :: 0 <= j < i ==> outcome(divs[j]).Ok?
    decreases |divs|
  {
    var init := divs[..|divs| - 1];
    var e := Collect(outcome, divs).error;
    if Collect(outcome, init).Err? {
      CollectFirstError(outcome, init);
      var i :| && 0 <= i < |init| && outcome(init[i]) == Err(e)
               && forall j :: 0 <= j < i ==> outcome(init[j]).Ok?;
      assert init[i] == divs[i];
      assert forall j :: 0 <= j < i ==> init[j] == divs[j];
    } else {
      CollectOk(outcome, init);
      assert forall j :: 0 <= j < |init| ==> init[j] == divs[j];
      assert outcome(divs[|divs| - 1]) == Err(e);
    }
  }

  /** Once a prefix of the divs fails, the later divs do not matter. */
  lemma {:induction false} CollectErrPrefix<T>(outcome: RaceDiv -> Result<T, ScrapeError>, divs: seq<RaceDiv>, n: nat)
    requires n <= |divs|
    requires Collect(outcome, divs[..n]).Err?
    ensures Collect(outcome, divs) == Collect(outcome, divs[..n])
    decreases |divs| - n
  {
    if n < |divs| {
      var longer := divs[..n + 1];
      assert longer[..n] == divs[..n];
      CollectErrPrefix(outcome, divs, n + 1);
    } else {
      assert divs[..n] == divs;
    }
  }

  /** What `get` returns for the race divs of a scraper. */
  function Races(s: Scraper, rowScraper: (PageType, Row) -> Record, divs: seq<RaceDiv>)
    : Result<seq<seq<Record>>, ScrapeError>
  {
    Collect(div => RaceOutcome(s, rowScraper, div), divs)
  }

  /** `get` succeeds exactly when no race div fails, and then gives, for each
      div, one stamped record per row. */
  lemma RacesOk(s: Scraper, rowScraper: (PageType, Row) -> Record, divs: seq<RaceDiv>)
    ensures Races(s, rowScraper, divs).Ok? <==> forall i :: 0 <= i < |divs| ==> RaceFailure(divs[i]).None?
    ensures Races(s, rowScraper, divs).Ok? ==> |Races(s, rowScraper, divs).value| == |divs|
    ensures Races(s, rowScraper, divs).Ok? ==>
              forall i :: 0 <= i < |divs| ==> RaceRecords(s, rowScraper, divs[i], Races(s, rowScraper, divs).value[i])
  {
    var outcome := div => RaceOutcome(s, rowScraper, div);
    CollectOk(outcome, divs);
    forall i | 0 <= i < |divs| && RaceFailure(divs[i]).None?
      ensures outcome(divs[i]).Ok? && RaceRecords(s, rowScraper, divs[i], outcome(divs[i]).value)
    {
      RaceOutcomeRecords(s, rowScraper, divs[i]);
    }
  }

  /** When `get` fails, the error is that of the first failing race div. */
  lemma RacesFirstError(s: Scraper, rowScraper: (PageType, Row) -> Record, divs: seq<RaceDiv>)
    requires Races(s, rowScraper, divs).Err?
    ensures exists i :: && 0 <= i < |divs|
                        && RaceFailure(divs[i]) == Some(Races(s, rowScraper, divs).error)
                        && forall j :: 0 <= j < i ==> RaceFailure(divs[j]).None?
    ensures RaceError(Races(s, rowScraper, divs).error)
  {
    var outcome := div => RaceOutcome(s, rowScraper, div);
    CollectFirstError(outcome, divs);
  }

  /** `get`: one list of records per race div, in order, or the first failure. */
  method Get(s: Scraper, rowScraper: (PageType, Row) -> Record) returns (r: Result<seq<seq<Record>>, ScrapeError>)
    ensures r == Races(s, rowScraper, s.raceDivs)
  {
    var outcome := div => RaceOutcome(s, rowScraper, div);
    var races: seq<seq<Record>> := [];
    var i := 0;
    while i < |s.raceDivs|
      invariant 0 <= i <= |s.raceDivs|
      invariant Collect(outcome, s.raceDivs[..i]) == Ok(races)
    {
      var results := ScrapeRace(s, rowScraper, s.raceDivs[i]);
      assert results == outcome(s.raceDivs[i]);
      var prefix := s.raceDivs[..i + 1];
      assert prefix[..i] == s.raceDivs[..i];
      if results.Err? {
        CollectErrPrefix(outcome, s.raceDivs, i + 1);
        return Err(results.error);
      }
      races := races + [results.value];
      i := i + 1;
    }
    assert s.raceDivs[..i] == s.raceDivs;
    return Ok(races);
  }

  /** One pass of the outer loop of `get`. */
  method ScrapeRace(s: Scraper, rowScraper: (PageType, Row) -> Record, div: RaceDiv)
    returns (r: Result<seq<Record>, ScrapeError>)
    ensures r == RaceOutcome(s, rowScraper, div)
  {
    var race :- ReadRace(div);
    r := ReadRows(s, rowScraper, race);
    if r.Ok? {
      var expected := RaceOutcome(s, rowScraper, div).value;
      forall k | 0 <= k < |race.rows|
        ensures r.value[k] == expected[k]
      {
        StampedExactly(r.value[k], rowScraper(s.pageType, race.rows[k]),
                       FieldsFor(s, race, ParseNat(race.config.distanceText).value));
      }
      assert |expected| == |race.rows|;
      assert r.value == expected;
    }
  }

  /** The inner loop of `get`: every row of one race through the row scraper,
      then stamped with the race's fields. */
  method ReadRows(s: Scraper, rowScraper: (PageType, Row) -> Record, race: Race)
    returns (r: Result<seq<Record>, ScrapeError>)
    ensures r.Err? <==> |race.rows| > 0 && ParseNat(race.config.distanceText).None?
    ensures r.Err? ==> r.error == DistanceNotInteger(race.config.distanceText)
    ensures r.Ok? ==> |r.value| == |race.rows|
    ensures r.Ok? ==> forall k :: 0 <= k < |race.rows| ==>
              Stamped(r.value[k], rowScraper(s.pageType, race.rows[k]),
                      FieldsFor(s, race, ParseNat(race.config.distanceText).value))
  {
    var results: seq<Record> := [];
    var k := 0;
    while k < |race.rows|
      invariant 0 <= k <= |race.rows|
      invariant |results| == k
      invariant k > 0 ==> ParseNat(race.config.distanceText).Some?
      invariant forall m :: 0 <= m < k ==>
                  Stamped(results[m], rowScraper(s.pageType, race.rows[m]),
                          FieldsFor(s, race, ParseNat(race.config.distanceText).value))
    {
      var model := rowScraper(s.pageType, race.rows[k]);
      var distance := ParseNat(race.config.distanceText);
      if distance.None? {
        return Err(DistanceNotInteger(race.config.distanceText));
      }
      results := results + [Stamp(model, FieldsFor(s, race, distance.value))];
      k := k + 1;
    }
    return Ok(results);
  }

  /** A race div written the way the site writes one is read back into its
      race id, distance, track type and rows. */
  lemma ReadRenderedRace(raceId: nat, lead: string, indent: nat, distance: nat,
                         trackType: string, trailer: string, rows: seq<Row>)
    requires Separable(Spaces(indent) + ToDecimal(distance), trackType, trailer)
    ensures var heading := Render(lead, Spaces(indent) + ToDecimal(distance), trackType, trailer);
            var div := RaceDiv(Some(ToDecimal(raceId)), Some(Details(Some(heading))), Some(rows));
            && ReadRace(div) == Ok(Race(raceId, RaceConfig(ToDecimal(distance), trackType), rows))
            && RaceFailure(div).None?
  {
    ParseDecimalRoundTrip(raceId);
    ParseRender(lead, Spaces(indent) + ToDecimal(distance), trackType, trailer);
    DistanceRoundTrip(indent, distance);
  }

  /** `scrap_by_date`: construct without HTML, then `get`. */
  method ScrapByDate(pageType: PageType, city: City, date: Date, fetch: string -> string,
                     parse: string -> Page, rowScraper: (PageType, Row) -> Record)
    returns (r: Result<seq<seq<Record>>, ScrapeError>)
    ensures BraceFree(city.name) ==>
              (r == Err(NoRacesPanes) <==> |parse(fetch(ExpectedUrl(pageType, city, date))).panes| == 0)
    ensures BraceFree(city.name) && r.Ok? ==>
              |r.value| == |parse(fetch(ExpectedUrl(pageType, city, date))).panes[0]|
    ensures BraceFree(city.name) ==>
              var u := ExpectedUrl(pageType, city, date);
              var page := parse(fetch(u));
              |page.panes| > 0 ==> r == Races(Scraper(pageType, city, date, fetch(u), u, page.panes[0]), rowScraper, page.panes[0])
    ensures r.Err? ==> !r.error.InvalidDate?
  {
    if BraceFree(city.name) {
      InitFetches(pageType, city, date, [], fetch, parse);
    }
    var s :- Init(pageType, city, date, [], [], fetch, parse);
    r := Get(s, rowScraper);
    if r.Err? {
      RacesFirstError(s, rowScraper, s.raceDivs);
    }
  }

  /** `scrap`: the date is built from its parts first, and an impossible date
      stops the scrape before any request is made. */
  method Scrap(pageType: PageType, city: City, year: int, month: int, day: int, fetch: string -> string,
               parse: string -> Page, rowScraper: (PageType, Row) -> Record)
    returns (r: Result<seq<seq<Record>>, ScrapeError>)
    ensures FromValues(year, month, day).Err? ==> r == Err(InvalidDate(FromValues(year, month, day).error))
    ensures (r.Err? && r.error.InvalidDate?) <==> FromValues(year, month, day).Err?
    ensures FromValues(year, month, day).Ok? && BraceFree(city.name) ==>
              (r == Err(NoRacesPanes)
               <==> |parse(fetch(ExpectedUrl(pageType, city, FromValues(year, month, day).value))).panes| == 0)
    ensures FromValues(year, month, day).Ok? && BraceFree(city.name) ==>
              var d := FromValues(year, month, day).value;
              var u := ExpectedUrl(pageType, city, d);
              var page := parse(fetch(u));
              |page.panes| > 0 ==> r == Races(Scraper(pageType, city, d, fetch(u), u, page.panes[0]), rowScraper, page.panes[0])
  {
    var date :- FromValues(year, month, day).MapError(e => InvalidDate(e));
    r := ScrapByDate(pageType, city, date, fetch, parse, rowScraper);
  }
}
