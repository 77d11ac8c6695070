# Race-day scraper model

A Dafny model of the race-day scraper of the Horsing-Around project
(`scrapper/scrappers/race_day.py`). Given a page type (fixture or result), a
city and a date, the scraper does three things:

- It builds the URL of the day's race page on the racing authority's site. It
  fills a `str.format` template in two passes and renders the date with
  `strftime('%d-%m-%Y')`, with the dashes then replaced by `%2F`.
- It downloads the page, or accepts stored HTML for replay, and takes the race
  divs from the first `races-panes` container.
- In `get`, it turns every race div into one list of records. For each div it
  reads the race id from the div's `id` attribute. It reads the distance and the
  track type from the heading text. It passes every table row to a row scraper
  and stamps the race-level fields onto each resulting record.

The modules follow that structure:

- `Results`: `Option` and `Result`, which stand in for Python's exceptions.
- `Text`: `str.find`, `str.split`, `split(...)[0]`, `split(...)[-1]` and
  single-character `str.replace`.
- `Digits`: `int(...)` on digit strings, `str(n)` and zero padding.
- `PyFormat`: positional `str.format`.
- `Calendar`:
  - the `datetime.date` constructor and its checks
  - the `strftime` directives used by the scraper
  - the URL form of a date
- `RaceUrl`: the page types, the cities and the URL.
- `RaceHeading`: the race-config heading.
- `RaceDay`: construction, `get`, `scrap_by_date` and `scrap`.

The HTML parser, the network and the row scrapers are parameters of the model:
- `parse: string -> Page`
- `fetch: string -> string`
- `rowScraper: (PageType, Row) -> Record`

A `Page` is the list of `races-panes` divs. Each one is given by its direct
child divs. A `RaceDiv` holds:
- its `id` attribute
- its `race-details` div, with the joined text of the `race-config` heading
- the rows of its `tbody`

Each of these is `None` when the markup lacks it. Every exception the scraper
lets escape on these paths is a constructor of `ScrapeError`. The checks run
in the source's order.

Details of the code the model keeps as written:

- The distance loses only its space characters (`replace(" ", "")`), not other
  whitespace.
- The date in the URL is 14 characters long: `dd%2Fmm%2Fyyyy`.
- `int(distance)` runs once per row, so a race without rows never fails on a
  malformed distance.
- The track type is cut at a literal two-character backslash-r, not at a
  carriage return. A real line break after the track type therefore stays in
  it (`RaceHeading.CarriageReturnKept`).

## Model

| member | source | states |
|---|---|---|
| Text.Find | scrapper/scrappers/race_day.py:116-126 | The reported index is an occurrence of the pattern with none before it. None means that the pattern occurs nowhere. |
| Text.Split | scrapper/scrappers/race_day.py:116-126 | `s.split(sep)` has at least one piece, and no piece contains the separator. |
| Text.SplitJoin | scrapper/scrappers/race_day.py:116-119 | Joining the pieces of `s.split(sep)` with `sep` gives back `s`. |
| Text.SplitSingle | scrapper/scrappers/race_day.py:119-126 | The split has exactly one piece iff the separator is absent. This is the case where `race_info[1]` fails. |
| Text.SplitAtFirst | scrapper/scrappers/race_day.py:119 | If the first separator follows `a`, splitting `a + sep + b` gives `a` and then the pieces of `b`. |
| Text.First | scrapper/scrappers/race_day.py:126 | `s.split(sep)[0]` is a prefix without the separator. It is all of `s` iff the separator is absent; otherwise the separator follows it. |
| Text.FirstUnique | scrapper/scrappers/race_day.py:126 | The first piece is the unique separator-free prefix that ends at the end of `s` or at an occurrence. |
| Text.Last | scrapper/scrappers/race_day.py:116 | For a one-character separator `c`, `s.split(c)[-1]` is a suffix without `c`. It is all of `s` iff `c` is absent; otherwise a `c` precedes it. |
| Text.LastIsSplitLast | scrapper/scrappers/race_day.py:116 | `Last(s, c)` is the last piece of `Split(s, [c])`, so the text the scraper keeps is exactly `split(",")[-1]`. |
| Text.LastCharUnique | scrapper/scrappers/race_day.py:116 | For a one-character separator, the last piece is the unique separator-free suffix that is all of `s` or follows the separator. |
| Text.ReplaceChar | scrapper/scrappers/race_day.py:122 | `s.replace(c, t)` is `s` when `c` is absent. It keeps no `c` when `t` has none, and it keeps the count of every other character not in `t`. |
| Text.ReplaceCharSplitJoin | scrapper/scrappers/race_day.py:122 | `s.replace(c, t) == t.join(s.split(c))`: the replacement goes exactly where the character was, and the other characters keep their order. |
| Text.ReplaceJoin | scrapper/scrappers/race_day.py:60 | Replacing `c` in pieces joined by `c`, none of which contains `c`, joins the same pieces with `t`. |
| Text.ReplaceCharAppend | scrapper/scrappers/race_day.py:60 | Replacing a character in a concatenation replaces it in each part. |
| Digits.ParseNat | scrapper/scrappers/race_day.py:143 | `int(text)` succeeds exactly on non-empty digit strings. |
| Digits.ToDecimal | scrapper/scrappers/race_day.py:52 | `str(n)`, used for the city code, is a non-empty digit string without a leading zero. |
| Digits.ParseDecimalRoundTrip | scrapper/scrappers/race_day.py:104 | `int(str(n)) == n`: an id written in decimal reads back as itself. |
| Digits.DecimalWidth | scrapper/scrappers/race_day.py:60 | A number below `10^w` takes at most `w` digits, so a day or month takes 2 and a year 4. |
| Digits.ZeroPad | scrapper/scrappers/race_day.py:60 | A zero-padded numeral is all digits, at least `width` long and no longer than needed. |
| Digits.ZeroPadValue | scrapper/scrappers/race_day.py:60 | A zero-padded numeral still denotes its number. |
| PyFormat.Format | scrapper/scrappers/race_day.py:48-52 | `template.format(...)` returns a template without braces unchanged. |
| PyFormat.FormatDigitField | scrapper/scrappers/race_day.py:52 | A leading field `{k}` becomes the `k`-th argument verbatim, and formatting continues after it. |
| PyFormat.FormatBraceFreePrefix | scrapper/scrappers/race_day.py:62 | Text without braces passes through formatting in front of whatever follows. |
| PyFormat.FormatEscaped | scrapper/scrappers/race_day.py:48-52 | Formatting a template whose braces are doubled reproduces the undoubled text. `Escape`, the brace doubling, serves only as this reference inverse of `Format`. |
| Calendar.FromValues | scrapper/scrappers/race_day.py:91-92 | `datetime.date(y, m, d)` succeeds iff the year is in 1..9999, the month in 1..12 and the day within the month. A bad year is reported before a bad month. |
| Calendar.Strftime | scrapper/scrappers/race_day.py:60 | A format without `%` is returned as it is. |
| Calendar.DateFormatAssembled | scrapper/scrappers/race_day.py:57 | `'{0}-{1}-{2}'.format('%d', '%m', '%Y')` is exactly `'%d-%m-%Y'`, the format that `strftime` is given. |
| Calendar.StrftimeDateFormat | scrapper/scrappers/race_day.py:57-60 | `strftime('%d-%m-%Y')` gives the 2-digit day, 2-digit month and 4-digit year joined by dashes. |
| Calendar.UrlDate | scrapper/scrappers/race_day.py:55-60 | The URL date is the 2-digit day, `%2F`, the 2-digit month, `%2F` and the 4-digit year: 14 characters. |
| Calendar.UrlDateRoundTrip | scrapper/scrappers/race_day.py:55-60 | Reading the URL date back gives the date. |
| Calendar.UrlDateInjective | scrapper/scrappers/race_day.py:55-62 | Two dates share a URL date iff they are the same date. |
| RaceUrl.Keyword | scrapper/scrappers/race_day.py:198-212 | The page-type keyword (`GunlukYarisProgrami` or `GunlukYarisSonuclari`) is non-empty and brace-free. |
| RaceUrl.FirstPass | scrapper/scrappers/race_day.py:48-52 | The first pass fills the race type, the city code and the city name. It leaves a `{0}` where the date goes. |
| RaceUrl.SecondPass | scrapper/scrappers/race_day.py:62 | The second pass replaces that `{0}` by the date and changes nothing else. |
| RaceUrl.BuildUrl | scrapper/scrappers/race_day.py:48-62 | The URL built in two `format` passes with the URL date. What it yields is stated by `RaceUrl.BuildUrlShape`. |
| RaceUrl.BuildUrlShape | scrapper/scrappers/race_day.py:45-62 | For a brace-free city name, the URL is exactly: host, keyword, `?SehirId=` and code, `&QueryParameter_Tarih=` and URL date, `&SehirAdi=` and name. |
| RaceHeading.RemoveSpaces | scrapper/scrappers/race_day.py:122 | The result is the pieces between the spaces concatenated in order (`"".join(s.split(" "))`). It has no space and the same count of every other character. |
| RaceHeading.ParseRaceConfig | scrapper/scrappers/race_day.py:112-126 | A config exists iff a blank line (CRLF CRLF) follows the last comma. The distance text then has no spaces, and the track type has no literal backslash-r. |
| RaceHeading.ParseRender | scrapper/scrappers/race_day.py:114-126 | A heading laid out as lead, comma, distance, blank line, track type and trailer parses back to the distance without spaces and to the track type. |
| RaceHeading.TrackTypeOf | scrapper/scrappers/race_day.py:124-126 | The track type is the text before a trailer that starts with a literal backslash-r. |
| RaceHeading.ParseAfterBlankLine | scrapper/scrappers/race_day.py:114-126 | After the last comma and the first blank line, the track type is the rest cut at the next blank line and then at the first literal backslash-r. |
| RaceHeading.ParseNoComma | scrapper/scrappers/race_day.py:114-126 | A heading without a comma is read whole: the distance is the text before the first blank line without its spaces, and the track type is cut from the rest as after a comma. |
| RaceHeading.CarriageReturnKept | scrapper/scrappers/race_day.py:119-126 | A single CR-LF after the track type is not a cut point: the line break and everything after it stay in the track type. |
| RaceHeading.DistanceRoundTrip | scrapper/scrappers/race_day.py:121-122 | A numeral behind any number of spaces loses the spaces and reads back as its number. |
| RaceDay.Stamp | scrapper/scrappers/race_day.py:141-146 | The result has the five race fields set and every row field of the scraped record. |
| RaceDay.StampedExactly | scrapper/scrappers/race_day.py:141-146 | A record is the scraped record with these race fields iff it is `Stamp` of it. |
| RaceDay.Restamp | scrapper/scrappers/race_day.py:141-146 | Stamping again replaces the race fields and keeps the row. The stamped fields can be read back. |
| RaceDay.OverlayStored | horsing_around/tests/local/scrapper.py:20-28 | Overlaying a stored record's race fields on a re-scraped row reproduces the record iff the row fields agree. |
| RaceDay.RaceDivs | scrapper/scrappers/race_day.py:79-88 | No `races-panes` container is an `IndexError`; otherwise the race divs are the first container's direct children. `RaceDay.Init` states this for the constructed scraper. |
| RaceDay.Init | scrapper/scrappers/race_day.py:39-88 | Given HTML, the scraper keeps that HTML and URL and succeeds iff the page has a `races-panes` container. Without HTML, it fetches the built URL. The race divs are the first container's children. |
| RaceDay.InitFetches | scrapper/scrappers/race_day.py:44-68 | Without HTML, the fetched URL is the expected URL. Construction fails only, and exactly, when that page has no races container. |
| RaceDay.Replay | scrapper/scrappers/race_day.py:69-71 | Rebuilding a scraper from its stored non-empty HTML and URL gives the same scraper, whatever the network now answers. |
| RaceDay.FromDateValues | scrapper/scrappers/race_day.py:90-92 | An impossible date gives the date error. Otherwise the scraper holds that date, and its page was fetched from the URL built for it. |
| RaceDay.ReadRace | scrapper/scrappers/race_day.py:104-129 | A div reads iff it has a numeric id, a details div, a heading with a track type and a table body. A missing id, a non-numeric id and missing details give their own errors, in that order. |
| RaceDay.RaceFailure | scrapper/scrappers/race_day.py:104-143 | A race div fails only with an error that belongs to a race div. |
| RaceDay.ReadRenderedRace | scrapper/scrappers/race_day.py:104-126 | A div with a decimal id and a laid-out heading reads back as that id, distance, track type and rows, and does not fail. |
| RaceDay.ReadRows | scrapper/scrappers/race_day.py:129-156 | The inner loop fails iff there are rows and the distance is not a number. Otherwise it gives one record per row, in order, each stamped with the race's fields. |
| RaceDay.RaceOutcome | scrapper/scrappers/race_day.py:102-159 | A race div's outcome is an error iff the div fails, and then the error is the div's failure. |
| RaceDay.RaceOutcomeRecords | scrapper/scrappers/race_day.py:132-159 | A div that does not fail yields one stamped record per row, in row order. |
| RaceDay.ScrapeRace | scrapper/scrappers/race_day.py:102-159 | One pass of the outer loop computes the div's outcome. |
| RaceDay.Collect | scrapper/scrappers/race_day.py:100-162 | A successful outer loop has one entry per race div. |
| RaceDay.CollectOk | scrapper/scrappers/race_day.py:100-162 | The outer loop succeeds iff every div succeeds, and entry `i` is div `i`'s value. |
| RaceDay.CollectFirstError | scrapper/scrappers/race_day.py:100-162 | A failed outer loop reports the error of the first failing div. |
| RaceDay.CollectErrPrefix | scrapper/scrappers/race_day.py:100-162 | Once a prefix of the divs fails, the remaining divs do not change the outcome. |
| RaceDay.RacesOk | scrapper/scrappers/race_day.py:98-162 | `get` succeeds iff no race div fails. It then returns one list per div, in order, holding one stamped record per row. |
| RaceDay.RacesFirstError | scrapper/scrappers/race_day.py:98-162 | A failing `get` reports the first failing div's error, which is a race-div error. |
| RaceDay.Get | scrapper/scrappers/race_day.py:98-162 | The loop computes the outcome that `RacesOk` and `RacesFirstError` describe. |
| RaceDay.ScrapByDate | scrapper/scrappers/race_day.py:172-182 | For a brace-free city name, the scrape fails with "no races container" iff the fetched page at the expected URL has none. Otherwise it returns `get` over that page's race divs. |
| RaceDay.Scrap | scrapper/scrappers/race_day.py:184-195 | An impossible date is reported as such, and only an impossible date is. For a valid date and a brace-free city name, it fails with "no races container" iff the fetched page has none, and otherwise returns `get` over that page's race divs, as `scrap_by_date` does. |

## Left out

- Network and console I/O (`urllib.request.urlopen`, `print`): the download is the `fetch` parameter and printing is dropped. `fetch` is a total function, so the transport failures that `urlopen` can raise (line 68) do not occur in the model.
- BeautifulSoup/lxml (`find`, `find_all`, `stripped_strings`): the parsed page is the `parse` parameter, and a race div already carries the joined heading text. `find_all("tr")` is the given row list.
- Persistence and fixture capture: `save_data_for_test`, `get_test_data_model`, `.save()`, `FixtureTestData.from_actual` and the record ids that storage assigns. These belong to the database layer.
- The row scrapers (`FixtureRowScrapper`, `ResultRowScrapper`) and the record model class are not part of this model. A row scraper is an uninterpreted total function. The row fields are kept as strings.
- `from_test_data_model` looks up `City(model.city_id)` in an enumeration that is not part of this model. `Replay` covers the rebuild from stored HTML and URL.
- `PageDoesNotExist`, `HorseScrapper` and the record `time_as_seconds` conversion, which the tests name, are not part of this model.
- The `save_data_for_test` default of `scrap_by_date` and `scrap` only affects persistence.
- `scrap` passes a `datetime.datetime`, not a `date`. `strftime('%d-%m-%Y')` sees only its date part, but the records then hold a datetime at midnight; the model stores its date part.
- Digits.ParseNat: accepts only non-empty ASCII digit strings. Python's `int` also accepts a sign, surrounding whitespace, underscores and non-ASCII digits. Race ids and distances in those forms are reported as not integers.
- PyFormat.Format: models `{{`, `}}` and numeric fields `{k}` only. Auto-numbered `{}` fields, named fields, conversions and format specs are reported as unsupported, where Python would number `{}` automatically. The scraper's templates contain none of them.
- Calendar.Strftime: models `%d`, `%m`, `%Y` and `%%` only, and writes `%Y` with four digits for every year. Below year 1000, CPython's output depends on the platform.
- RaceUrl.BuildUrlShape: stated for brace-free city names, which enumeration member names are. A name with braces makes the second `format` pass fail or misread it (`UrlFormat`).

