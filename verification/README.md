# Job-posting scraper: a Dafny model

This project models the core of a Python scraper for job postings. The
scraper collects postings from four Chilean job boards: Laborum, Trabajando,
Trabajo con Sentido and LinkedIn. It normalises each posting into one `Job`
record and exports the records as CSV rows.

Each board has a **spider**. A spider walks the nine search positions
(backend, frontend, ... designer) in declaration order. For each position it
pages through the board's search results, resolves every offer, copies the
offer's payload into a fresh `Job`, and decides from the title whether the
posting is an internship. The three JSON boards are read through small fetch
helpers that swallow errors or retry. LinkedIn is read through a public
"guest" listing, which is paged 25 entries at a time, de-duplicated by url
within each position, and followed by one detail page per link. LinkedIn's
browser-driven UI path is taken first when configured and falls back to the
guest path. The export script runs the requested spiders and contains each
spider's failure. It optionally keeps one posting per url (the last one,
placed where that url first appeared) and renders every posting as a row of
thirteen text cells.

The model is written in Dafny terms:

- Python values decoded from JSON are the `Py.Json` datatype; `JNull` is `None`.
- An operation that raises returns `Err` with the exception class (`Py.Exc`).
  Callers propagate it exactly where the Python code would.
- Datetimes are whole seconds since `0001-01-01T00:00:00`.
- The current time (`now`) is a parameter. LinkedIn's `_extract_relative_date` calls `datetime.utcnow()` once per card (src/spiders/api/linkedin.py:323); the model reads one `now` for the whole run, so cards parsed moments apart share a reference time.
- The network is a parameter. `Fetch.Net` is the sequence of outcomes one
  helper call meets, one per attempt. Each spider's `Api` maps a request to
  what its fetch helper returns.
- LinkedIn HTML arrives already split into the fields the code selects
  (`Linkedin.Card`, `JobModel.DetailDoc`).

Modules, one per source component:

| module | file | models |
|---|---|---|
| `Wrappers` | wrappers.dfy | `Option`, `Result` |
| `Text` | text.dfy | `str` methods: `split`, `strip`, `lower`, `isdigit`, `replace`, `in`, `int()` of digits |
| `Py` | python.dfy | JSON values, truthiness, `dict.get`, subscription, iteration, `str`/`repr` |
| `Enums` | enums.dfy | `src/utils/enums.py` |
| `Calendar` | calendar.dfy | `datetime.strptime("%Y-%m-%d")`, `isoformat(timespec="seconds")` |
| `Url` | url.dfy | `urllib.parse.urlencode` (`quote_plus`, UTF-8) |
| `Fetch` | fetch.dfy | `src/utils/fetch.py` |
| `Pipeline` | pipeline.dfy | the loops every spider's `run` shares |
| `JobModel` | job.dfy | `src/classes/job.py` |
| `Laborum` | laborum.dfy | `src/spiders/api/laborum.py` |
| `Trabajando` | trabajando.dfy | `src/spiders/api/trabajando.py` |
| `Tcs` | trabajoconsentido.dfy | `src/spiders/api/trabajoconsentido.py` |
| `Linkedin` | linkedin.dfy | URLs, listing cards, relative dates and modality hints of `src/spiders/api/linkedin.py` |
| `LinkedinGuest` | guest.dfy | the guest paging walk, link dedup, detail jobs and `run` of `src/spiders/api/linkedin.py` |
| `Export` | export.dfy | `src/export_csv.py` |

Four behaviours of the code that the model keeps as written:

- Dedup keeps one posting per url: the last one, placed where that url first
  appeared, because a `dict` keeps first-insertion order
  (src/export_csv.py:78-84).
- The guest walk stops at the first page whose fetch is empty or failed, and
  at the first page without cards (src/spiders/api/linkedin.py:296-301).
- `set_practice` returns without setting `isPractice` when the title is empty
  (src/classes/job.py:39-41).
- A LinkedIn `<time>` tag's `datetime` attribute is read in place of its
  relative text (src/spiders/api/linkedin.py:325). An ISO date carries no
  hour, day or week cue, so such postings are dated `now`
  (`Linkedin.DatetimeAttributeGivesNow`).

## Model

| member | source | states |
|---|---|---|
| Text.NatToString | src/spiders/api/linkedin.py:292 | `str(n)` of a non-negative int is a non-empty run of decimal digits without a leading zero |
| Text.NatValueOfNatToString | src/spiders/api/linkedin.py:374 | `int(str(n)) == n`: reading the decimal text back gives the number |
| Text.WordsAreRuns | src/classes/job.py:52 | every token `split()` yields is a maximal run of non-whitespace characters of the text |
| Text.RunsAreWords | src/classes/job.py:52 | every maximal run of non-whitespace characters is one of the tokens `split()` yields |
| Text.Strip | src/export_csv.py:62 | `strip()` never lengthens the text, and a non-empty result neither starts nor ends with whitespace |
| Text.Lower | src/spiders/api/linkedin.py:344 | `lower()` keeps the length and lowers each character on its own (ASCII and Latin-1 capitals) |
| Text.FoldAccents | src/classes/job.py:43-50 | the five accent replacements keep the length and map each character independently |
| Text.SplitOn | src/classes/job.py:62 | `split(sep)` gives at least one part and no part contains the separator |
| Text.JoinSplitOn | src/classes/job.py:62 | joining the parts of `split(sep)` with `sep` rebuilds the text |
| Text.SplitOnJoin | src/export_csv.py:62 | splitting a separator-joined list of separator-free parts gives the parts back |
| Text.Replace | src/spiders/api/trabajando.py:54 | `replace` of a character that does not occur returns the text unchanged |
| Text.FirstInt | src/spiders/api/linkedin.py:367-374 | `_first_int` is None exactly when the text has no digit; otherwise it is the value of the first maximal digit run |
| Text.FirstDigitRunUnique | src/spiders/api/linkedin.py:367-374 | the first maximal digit run of a text is unique |
| Text.FirstIntReadsNumber | src/spiders/api/linkedin.py:367-374 | a digit-free prefix, the decimal `n` and a suffix not starting with a digit read back as `n` |
| Py.Lookup | src/classes/job.py:57 | a dict lookup finds a value exactly when some entry has the key, and the value is that entry's |
| Py.Get | src/classes/job.py:84 | `.get` on a non-dict raises AttributeError; on a dict it gives the stored value or the default |
| Py.Index | src/spiders/api/laborum.py:46 | `c['id']` is the stored value, KeyError when the key is missing, TypeError on a non-dict |
| Py.Iterate | src/spiders/api/laborum.py:45 | `for` over a list visits its items; a dict or string gives one step per key or character; any other value raises TypeError |
| Py.HasMember | src/spiders/api/laborum.py:41 | `key in v` tests dict keys, list items or substrings; other values raise TypeError |
| Py.AsInt | src/spiders/api/laborum.py:35 | floor division accepts ints and bools only, the int being its own value |
| Py.IntToString | src/spiders/api/linkedin.py:152 | `str(i)` is the decimal digits, with `-` before a negative number |
| Py.StrRepr | src/spiders/api/laborum.py:53 | `repr` of a string is wrapped in matching quotes; the quote is double exactly when the text holds a single quote and no double quote; text with no backslash, no chosen quote and no unprintable character stands between the quotes verbatim |
| Py.EscapeAllVerbatim | src/spiders/api/laborum.py:53 | escaping leaves text alone when none of its characters is a backslash, the quote or unprintable |
| Enums.PositionsInDeclarationOrder | src/utils/enums.py:14-23 | iterating `Position` visits all nine members, each once, in declaration order |
| Enums.PositionValuesHaveNoSpace | src/utils/enums.py:14-23 | no position value contains a space, so the `replace(' ', ...)` calls on it change nothing |
| Enums.PositionValuesDistinct | src/utils/enums.py:14-23 | two positions with the same value are the same position |
| Enums.ModalityValuesDistinct | src/utils/enums.py:9-12 | two modalities with the same value are the same modality |
| Enums.WebsiteValuesDistinct | src/utils/enums.py:3-7 | two websites with the same value are the same website |
| Enums.JobTypeValuesDistinct | src/utils/enums.py:25-29 | two job types with the same value are the same job type |
| Calendar.DateOfDayNumber | src/classes/job.py:63 | converting a valid date to its day count and back gives the same date |
| Calendar.YearOf | src/export_csv.py:44 | the year found for a day count is at or after the starting year, and the remaining days fall within that year |
| Calendar.MonthOf | src/export_csv.py:44 | the month found for a day of the year is at or after the starting month, and the remaining days fall within that month |
| Calendar.DateOfDay | src/export_csv.py:44 | the date of a day count is a valid calendar date unless it lies past year 9999 |
| Calendar.DayNumberOfDateOfDay | src/export_csv.py:44 | a day count turned into a valid date and back gives the same count |
| Calendar.YearOfSum | src/export_csv.py:44 | finding the year of a day count keeps the days before that year plus the remainder equal to the count |
| Calendar.MonthOfSum | src/export_csv.py:44 | finding the month of a day within a year keeps the days before that month plus the remainder equal to the day |
| Calendar.CivilOf | src/export_csv.py:44 | the time of day of an instant has hour below 24 and minute and second below 60, and `3600*hour + 60*minute + second` is the seconds past midnight; the date, when within year 9999, is the day whose midnight is the instant less those seconds |
| Calendar.IsoFormatOfMidnight | src/export_csv.py:44 | the ISO rendering of a day's midnight is `YYYY-MM-DDT00:00:00` |
| Calendar.ParseYmd | src/classes/job.py:87 | `strptime(s, "%Y-%m-%d")` yields only valid dates and fails only with ValueError |
| Calendar.ParseFormatYmd | src/classes/job.py:87 | parsing the `YYYY-MM-DD` text of a valid date gives the date back |
| Url.Utf8 | src/spiders/api/linkedin.py:295 | a character encodes to one to four bytes by its code point range; the lead byte lies in the range of its length and every following byte in 0x80-0xBF; an ASCII character is itself alone; the payload bits decode back to the code point |
| Url.PercentByte | src/spiders/api/linkedin.py:295 | `%XY` holds two hex digits whose value is the byte |
| Url.QuotePlus | src/spiders/api/linkedin.py:295 | text made only of unreserved characters is left as is |
| Url.QuotePlusAlphabet | src/spiders/api/linkedin.py:295 | the encoded text holds only unreserved characters, `+`, `%` and hex digits |
| Url.PercentBytesDecode | src/spiders/api/linkedin.py:295 | percent-decoding percent-encoded bytes gives the bytes back |
| Url.QuotePlusDecodes | src/spiders/api/linkedin.py:295 | percent-decoding an encoded value gives the value's UTF-8 bytes |
| Url.QuotePlusAppend | src/spiders/api/linkedin.py:295 | encoding a concatenation is the concatenation of the encodings |
| Url.QuotePlusEnye | src/spiders/api/linkedin.py:295 | `ñ` is sent as `%C3%B1` |
| Url.UrlEncodeFields | src/spiders/api/linkedin.py:295 | splitting the query on `&` gives one `key=value` field per parameter, in order |
| Fetch.JsonReply | src/utils/fetch.py:13-19 | an exception, an error status or a body that is not JSON gives None; otherwise the decoded body |
| Fetch.LaborumFetch | src/utils/fetch.py:10-19 | a single attempt: the decoded JSON of a successful reply, None on any failure |
| Fetch.TcsFetch | src/utils/fetch.py:49-59 | a single attempt: the decoded JSON of a successful reply, None on any failure |
| Fetch.LinkedinFetch | src/utils/fetch.py:61-85 | the body of the first 200 reply with a non-empty body within the attempt budget, None when there is none; no attempt after a success |
| Fetch.TrabajandoFetch | src/utils/fetch.py:26-46 | retries only after a timeout or connection error, at most `retries + 1` attempts; the first other outcome decides the result |
| Fetch.SetHeader | src/utils/fetch.py:11 | `h[name] = value` sets that header and leaves every other header alone |
| Fetch.SetDefaultHeader | src/utils/fetch.py:29 | `setdefault` adds a missing header only, leaving a present one and all others unchanged |
| Fetch.AgentHeaders | src/utils/fetch.py:50-51 | the caller's headers with `User-Agent` set to the chosen agent |
| Fetch.TrabajandoHeaders | src/utils/fetch.py:27-29 | the agent is set, and `Accept` is JSON unless the caller chose one |
| Fetch.LinkedinHeaders | src/utils/fetch.py:68-74 | five fresh headers per attempt, with the chosen agent |
| Pipeline.CollectAll | src/spiders/api/laborum.py:18-27 | the run succeeds exactly when every position does; it is their results concatenated, or the first position's exception |
| Pipeline.CollectAllMember | src/spiders/api/laborum.py:18-27 | a collected posting came from one of the per-position calls, and each of their postings is collected |
| Pipeline.MapAll | src/spiders/api/trabajando.py:21-22 | a list comprehension yields every result in order, or raises the first exception |
| Pipeline.KeepPresent | src/spiders/api/trabajando.py:22 | calling a fetch on every item and keeping the non-None results succeeds exactly when every call does; it keeps the present results in item order (`Present(Results(xs, f))`, `Results` listing each call's value), a value is kept exactly when some call returned it, and an error is the first call's exception |
| Pipeline.Present | src/spiders/api/trabajando.py:22 | dropping the None results keeps exactly the present ones |
| Pipeline.FlattenGrouped | src/spiders/api/laborum.py:21-25 | concatenating per-position groups in position order yields postings sorted by position |
| JobModel.SetPractice | src/classes/job.py:39-53 | the internship check changes only `isPractice`; it is set from the title words for a non-empty string title, left as it was for an empty title, and a truthy non-string title raises AttributeError |
| JobModel.PracticeTitleIffWord | src/classes/job.py:43-53 | the tokenised check holds exactly when some maximal non-space run of the normalised title is `practica`, `practicas` or `practicante` |
| JobModel.PracticeIgnoresCase | src/classes/job.py:44 | upper- or lower-casing a title does not change the verdict |
| JobModel.PracticeIgnoresAccents | src/classes/job.py:45-49 | removing the accents of the five vowels does not change the verdict |
| JobModel.PracticeExample | src/classes/job.py:39-53 | "Practicante DevOps" is an internship title |
| JobModel.AccentedPracticeExample | src/classes/job.py:39-53 | "PRÁCTICA" is an internship title |
| JobModel.NonPracticeExamples | src/classes/job.py:39-53 | "practica," (punctuation glued to the word) and "" are not |
| JobModel.LaborumDate | src/classes/job.py:62-63 | Laborum's `DD-MM-YYYY` date: a non-string raises AttributeError, a text not in three dash parts raises ValueError, a success is a valid date |
| JobModel.LaborumDateReadsDayMonthYear | src/classes/job.py:62-63 | the `DD-MM-YYYY` text of a valid date reads back as that date |
| JobModel.LaborumDefaultDate | src/classes/job.py:62 | a missing date reads as 2000-01-01 |
| JobModel.LaborumDateRejectsIso | src/classes/job.py:62-63 | an ISO `YYYY-MM-DD` date is rejected with ValueError |
| JobModel.LaborumDateRejectsYearFirst | src/classes/job.py:62-63 | a year-first `yyyy-mm-dd` date is reordered into a text with no leading year and raises ValueError |
| JobModel.LaborumDateRejectsShape | src/classes/job.py:62-63 | a date without dashes (a slash-separated one, say) raises ValueError, and a null date AttributeError |
| JobModel.TrabajandoDate | src/classes/job.py:87 | a success is a valid date; a non-string raises TypeError and a bad string ValueError |
| JobModel.TcsDate | src/classes/job.py:113 | a success is a valid date; a non-string raises AttributeError |
| JobModel.TcsDateReadsDatePart | src/classes/job.py:113 | `YYYY-MM-DDT...` reads as the date before the `T` |
| JobModel.TcsMissingDateFails | src/classes/job.py:113 | a missing `moderatedAt` raises ValueError |
| JobModel.SetLaborumData | src/classes/job.py:56-78 | copies title, company, location and description; dates the posting at midnight; sets the job type and a recognised modality; keeps url, position and website; succeeds exactly when the date parses and the title passes the internship check |
| JobModel.SetTrabajandoData | src/classes/job.py:81-104 | the same for Trabajando: `ubicacion` must be a dict, the description joins the offer and its requirements with a newline, "Part Time" means part time, and the modality follows the working pattern |
| JobModel.SetTcsData | src/classes/job.py:107-128 | the same for Trabajo con Sentido: `organization` must be a dict, "Completa" means full time |
| JobModel.SetLinkedinHtml | src/classes/job.py:131-157 | takes date and modality from the link and the text fields from the detail page; the job type changes only when a second criterion exists, and is part time exactly for "Media jornada" or "Voluntario" |
| JobModel.SettersUseOnlyFullOrPartTime | src/classes/job.py:65-151 | no setter produces the internship or freelance job types |
| JobModel.TrabajandoPatterns | src/classes/job.py:89-102 | "Part Time" gives part time in-office; a missing pattern gives full time in-office |
| Laborum.FloorDiv | src/spiders/api/laborum.py:35 | Python's `//`: ZeroDivisionError on zero, otherwise the floor of the quotient |
| Laborum.PageCount | src/spiders/api/laborum.py:35 | `-(-total // size)` is the ceiling: the fewest pages of `size` covering `total` |
| Laborum.IntAt | src/spiders/api/laborum.py:35 | `data[key]` used as a number must exist, and an int is its own value |
| Laborum.GetPages | src/spiders/api/laborum.py:29-36 | a failed first search gives no pages; a zero page size raises ZeroDivisionError; otherwise the pages are 1, 2, ... up to the fewest pages of `size` covering `totalSearched` |
| Laborum.ProvisionalCompany | src/spiders/api/laborum.py:49-53 | a dict `empresa` gives its `nombre` or "Sin empresa"; anything else gives its non-empty `str`, or "Sin empresa" |
| Laborum.OfferJob | src/spiders/api/laborum.py:45-67 | a non-dict offer raises TypeError and one without `id` KeyError; otherwise the result is `set_laborum_data` applied to the new posting (url the base plus `str(id)`, title and company from the offer, dated `now`); it succeeds exactly when the publication date parses and the title is accepted, and then carries the midnight of that date, the location, description, job type and modality from the offer |
| Laborum.Provisional | src/spiders/api/laborum.py:56-63 | the posting built before the setter: url the base plus `str(id)`, the position, Laborum, dated `now`, no modality or internship flag yet |
| Laborum.EntryJobs | src/spiders/api/laborum.py:44-69 | the loop over `content` succeeds exactly when every entry does, giving one posting per entry in order; an error is some entry's error |
| Laborum.PageOffers | src/spiders/api/laborum.py:40-69 | a failed fetch or a reply without `content` gives no postings; a list `content` gives one posting per entry in order, succeeding exactly when every entry's posting does; every posting carries the position and Laborum |
| Laborum.GetJobs | src/spiders/api/laborum.py:38-69 | a failed page fetch or a reply without `content` gives no postings; every posting carries the position and Laborum |
| Laborum.GetJobsEntries | src/spiders/api/laborum.py:38-69 | for a reply with a list `content`, `get_jobs` succeeds exactly when every entry does, and then gives each entry's posting in order |
| Laborum.PositionJobs | src/spiders/api/laborum.py:21-25 | a failed first search gives no postings; an error of `get_pages` or of any page's `get_jobs` aborts; otherwise the postings are every page's postings concatenated in page order, a posting is listed exactly when some page lists it, and each carries the position and Laborum |
| Laborum.Run | src/spiders/api/laborum.py:18-27 | succeeds exactly when every position does, with their postings concatenated in position order |
| Laborum.RunInPositionOrder | src/spiders/api/laborum.py:18-27 | the postings of a successful run are sorted by position |
| Laborum.FailedSearchContributesNothing | src/spiders/api/laborum.py:31-33 | a position whose first search fails contributes no postings |
| Trabajando.SearchUrlEndsWithAmpersand | src/spiders/api/trabajando.py:28-34 | the empty career query leaves a trailing `&` on the search url |
| Trabajando.PageUrlsDistinct | src/spiders/api/trabajando.py:40 | different page numbers give different page urls |
| Trabajando.GetPages | src/spiders/api/trabajando.py:33-40 | a failed search gives no pages; otherwise `cantidadPaginas` pages (none when not positive), page `i` being the search url with `&pagina=i+1`; a non-dict reply raises AttributeError |
| Trabajando.PagesDistinct | src/spiders/api/trabajando.py:33-40 | the page urls are pairwise distinct |
| Trabajando.OfferUrl | src/spiders/api/trabajando.py:47 | the offer url is the base plus `str(idOferta)`, and a missing `idOferta` raises |
| Trabajando.GetOffers | src/spiders/api/trabajando.py:42-47 | a failed fetch gives no offers; otherwise one url per listed offer |
| Trabajando.PostingUrlUsesPositionVerbatim | src/spiders/api/trabajando.py:54-55 | the posting url holds the position value unchanged, because it has no spaces |
| Trabajando.GetJob | src/spiders/api/trabajando.py:49-67 | a failed fetch gives None, a non-dict reply TypeError and a missing `idOferta` KeyError; otherwise the result is `set_trabajando_data` applied to the new posting, and a posting is produced exactly when `ubicacion` is a dict, the title is accepted and the date parses; a posting carries the position and Trabajando |
| Trabajando.Provisional | src/spiders/api/trabajando.py:54-64 | the posting built before the setter: url the board base, the position value, `/trabajo/` and `str(idOferta)`; the position, Trabajando, dated `now`, no modality or internship flag yet |
| Trabajando.GetJobFields | src/spiders/api/trabajando.py:57-66 | a produced posting is dated at the midnight of `fechaPublicacionFormatoIngles`, and takes its location, description, job type and modality from the offer |
| Trabajando.PositionOffers | src/spiders/api/trabajando.py:20-21 | a failed search gives no offers; an error of `get_pages` or of any page's `get_offers` aborts; otherwise the offer urls are every page's offers concatenated in page order |
| Trabajando.PositionJobs | src/spiders/api/trabajando.py:19-24 | a failed search gives no postings; an error listing the offers or fetching any offer aborts; otherwise the postings are the non-None `get_job` results in offer order, a posting is listed exactly when some offer's fetch returned it, and each carries the position and Trabajando |
| Trabajando.Run | src/spiders/api/trabajando.py:16-26 | succeeds exactly when every position does, with their postings concatenated in position order |
| Trabajando.RunInPositionOrder | src/spiders/api/trabajando.py:16-26 | the postings of a successful run are sorted by position |
| Tcs.ListUrlUsesPositionVerbatim | src/spiders/api/trabajoconsentido.py:60-61 | the listing url tags the position value unchanged |
| Tcs.SlugUrls | src/spiders/api/trabajoconsentido.py:66 | one detail url per dict offer with a truthy slug, and no other |
| Tcs.SlugUrlsOne | src/spiders/api/trabajoconsentido.py:66 | one offer gives its detail url when it is a dict with a truthy slug, and nothing otherwise |
| Tcs.SlugUrlsAppend | src/spiders/api/trabajoconsentido.py:66 | the urls of two offer lists back to back are the urls of each list, in order |
| Tcs.FetchOfferUrls | src/spiders/api/trabajoconsentido.py:63-66 | a falsy reply or a missing `content` gives no urls; a truthy non-dict reply, or a `content` that is present but not a dict, raises AttributeError; a list of offers gives their slug urls |
| Tcs.GetOfferUrls | src/spiders/api/trabajoconsentido.py:26-35 | the tagged listing is used when it yields urls, otherwise the unfiltered one; an exception propagates |
| Tcs.DetailOffer | src/spiders/api/trabajoconsentido.py:42-43 | the offer is `(content or {}).get("offer") or {}`, so `{}` when missing, null or falsy; a non-dict reply, a truthy non-dict content, or a truthy non-dict offer raises AttributeError |
| Tcs.GetJob | src/spiders/api/trabajoconsentido.py:37-57 | a falsy reply or an offer without slug gives None, and an error reading the offer propagates; otherwise the result is `set_trabajo_con_sentido_data` applied to the new posting, and a posting is produced exactly when `organization` is a dict, the title is accepted and `moderatedAt` parses; a posting has a url ending in the slug and carries the position |
| Tcs.Provisional | src/spiders/api/trabajoconsentido.py:47-55 | the posting built before the setter: url the base plus the slug, the position, Trabajo con Sentido, dated `now`, no modality or internship flag yet |
| Tcs.GetJobFields | src/spiders/api/trabajoconsentido.py:47-56 | a produced posting takes its company from the organization, is dated at the midnight of `moderatedAt`, and takes its location, description, job type and modality from the offer |
| Tcs.NullOrganizationRaises | src/spiders/api/trabajoconsentido.py:50 | an offer whose `organization` is null gets the empty company from the spider's `or {}` lookup, but makes the setter raise AttributeError |
| Tcs.PositionJobs | src/spiders/api/trabajoconsentido.py:19-23 | an error getting the offer urls or fetching any of them aborts; otherwise the postings are the non-None `get_job` results in url order, a posting is listed exactly when some url's fetch returned it, and each carries the position and Trabajo con Sentido |
| Tcs.Run | src/spiders/api/trabajoconsentido.py:17-24 | succeeds exactly when every position does, with their postings concatenated in position order |
| Tcs.RunInPositionOrder | src/spiders/api/trabajoconsentido.py:17-24 | the postings of a successful run are sorted by position |
| Linkedin.Keywords | src/spiders/api/linkedin.py:290 | the search keywords are never empty: the configured ones, or the position value |
| Linkedin.SearchUrlUiFields | src/spiders/api/linkedin.py:150-152 | the UI search url splits on `&` into keywords, `geoId=` for a numeric location or `location=` otherwise, and `f_TPR=r<seconds>` |
| Linkedin.GuestLocation | src/spiders/api/linkedin.py:294 | the guest location is never numeric: a numeric one becomes "Chile" |
| Linkedin.GuestQueryFields | src/spiders/api/linkedin.py:289-295 | the guest query has four fields in order: keywords, `f_TPR=r<seconds>`, `start=<25 * page>`, location |
| Linkedin.GuestUrlsDistinct | src/spiders/api/linkedin.py:292-295 | different pages give different guest urls |
| Linkedin.DateText | src/spiders/api/linkedin.py:324-328 | a non-empty `datetime` attribute wins over the tag text; without one the stripped, lowered tag text is used; when that stripped text is empty, or there is no time tag, the lowered list-date text is used, or `""` without one |
| Linkedin.UnitCount | src/spiders/api/linkedin.py:331 | `_first_int(txt) or 1`: the first number of the text, 1 when it is missing or zero |
| Linkedin.Ago | src/spiders/api/linkedin.py:329-341 | subtracting the interval from `now`; an interval past the calendar's start or above `timedelta`'s limit gives `now` |
| Linkedin.DateFromText | src/spiders/api/linkedin.py:329-341 | an hour cue gives `now` minus `n` hours, else a day cue `now` minus `n` days, else a week cue `now` minus `n` weeks, with `n` the first number or 1; an interval that overflows gives `now`; no cue gives `now`; the date is never after `now` |
| Linkedin.RelativeDate | src/spiders/api/linkedin.py:322-341 | a card's date is never after `now` |
| Linkedin.HoursAgo | src/spiders/api/linkedin.py:330-332 | "N hours ago" dates the posting N hours (1 for N = 0) before `now` |
| Linkedin.DaysAgo | src/spiders/api/linkedin.py:333-335 | "N días" dates the posting N days (1 for N = 0) before `now` |
| Linkedin.DatetimeAttributeGivesNow | src/spiders/api/linkedin.py:325 | a card whose `datetime` attribute is an ISO date is dated `now` |
| Linkedin.ModalityHint | src/spiders/api/linkedin.py:343-349 | remote exactly when the lowered text mentions remoto or remote; hybrid exactly when it mentions neither but mentions híbrido, hibrido or hybrid; in-office otherwise |
| Linkedin.ModalityHintInContext | src/spiders/api/linkedin.py:343-349 | surrounding a card's text with more text never downgrades a remote or hybrid hint |
| Linkedin.UrlBeforeQuery | src/spiders/api/linkedin.py:316 | `href.split("?")[0]` is the longest prefix without `?` |
| Linkedin.CardLink | src/spiders/api/linkedin.py:313-319 | a card's link is its `href` up to the first `?`, dated by the card's relative date (never after `now`) and tagged with the card text's modality hint |
| Linkedin.CardLinks | src/spiders/api/linkedin.py:313-319 | a card yields at most one link |
| Linkedin.ParseListing | src/spiders/api/linkedin.py:309-320 | a listing yields no links exactly when no card has an href |
| Linkedin.ParseListingMembers | src/spiders/api/linkedin.py:309-320 | the links are exactly those of the cards with an href |
| Linkedin.ParseListingAppend | src/spiders/api/linkedin.py:312-319 | parsing two runs of cards is parsing each, one after the other |
| LinkedinGuest.Dedup | src/spiders/api/linkedin.py:302-306 | skipping seen urls never adds links |
| LinkedinGuest.DedupUrls | src/spiders/api/linkedin.py:302-306 | the kept links cover exactly the urls of the input |
| LinkedinGuest.DedupDistinct | src/spiders/api/linkedin.py:302-306 | the kept links have pairwise distinct urls |
| LinkedinGuest.DedupKeepsFirst | src/spiders/api/linkedin.py:302-306 | the kept links are, in order, the first link of each url |
| LinkedinGuest.DedupPrefix | src/spiders/api/linkedin.py:302-306 | links kept from a prefix of the input stay kept, at the front |
| LinkedinGuest.DedupSnoc | src/spiders/api/linkedin.py:302-306 | one more link is kept exactly when its url is new |
| LinkedinGuest.Walk | src/spiders/api/linkedin.py:288-301 | at most `max_pages` pages are read, and every page read has links |
| LinkedinGuest.WalkContents | src/spiders/api/linkedin.py:288-301 | page `k` of the walk is the parse of the `k`-th fetched body |
| LinkedinGuest.WalkStopsAt | src/spiders/api/linkedin.py:296-298 | a failed or empty fetch ends the walk before that page |
| LinkedinGuest.WalkReadsBelowMax | src/spiders/api/linkedin.py:288 | pages at or past `max_pages` are never fetched |
| LinkedinGuest.GuestPageContents | src/spiders/api/linkedin.py:288-301 | guest page `k` is below `max_pages` and is the parsed listing of the `k`-th guest url |
| LinkedinGuest.AppendUnseen | src/spiders/api/linkedin.py:302-306 | the inner loop extends the kept links exactly as dedup of the longer input, keeping `seen` equal to their urls |
| LinkedinGuest.CollectLinks | src/spiders/api/linkedin.py:285-307 | the loop returns the dedup of all links of the pages walked |
| LinkedinGuest.CollectLinksGuest | src/spiders/api/linkedin.py:285-307 | the guest collection is that dedup for the position's guest urls, with distinct urls |
| LinkedinGuest.BuildJob | src/spiders/api/linkedin.py:351-364 | a posting is built exactly when the detail fetch gives a non-empty body; it keeps the link's url, date and modality |
| LinkedinGuest.PositionJobFromLink | src/spiders/api/linkedin.py:275-283 | every posting of a position carries it and LinkedIn, and comes from one of its collected links |
| LinkedinGuest.GuestRunInPositionOrder | src/spiders/api/linkedin.py:275-283 | the guest run's postings are sorted by position and all come from LinkedIn |
| LinkedinGuest.Run | src/spiders/api/linkedin.py:41-48 | the UI result when not headless and the UI returns; the guest run when headless or the UI raises |
| LinkedinGuest.RunFallbackIsWhole | src/spiders/api/linkedin.py:41-48 | the spider returns either the whole guest run or exactly what the UI returned, and in headless mode the UI outcome is irrelevant |
| Export.FromJson | src/export_csv.py:38-39 | a stored payload value is None exactly when it is JSON null |
| Export.AttrGet | src/export_csv.py:51 | `d.get(f)` is None when no attribute has that name, and otherwise the value stored under it |
| Export.JobToRow | src/export_csv.py:47-52 | a row has exactly the thirteen CSV columns, in header order |
| Export.Rows | src/export_csv.py:86 | one row per posting, each with the thirteen columns in header order |
| Export.UrlCells | src/export_csv.py:86 | the url cell of each row is the url of its posting |
| Export.RowColumns | src/export_csv.py:37-52 | column by column: text fields through `str` with None empty, enum values, ISO instant, url, and the flags |
| Export.RowTextColumns | src/export_csv.py:37-45 | title, company, location and description render through `str`, None as the empty cell |
| Export.RowEnumColumns | src/export_csv.py:40-41 | position, website, type and modality render as their enum values, unset as the empty cell |
| Export.RowSalaryRemote | src/export_csv.py:37-45 | salary and remote render through `str`, unset as the empty cell |
| Export.RowPractice | src/export_csv.py:51 | `isPractice` renders its flag once set, and the empty cell while the attribute is missing |
| Export.RowPublished | src/export_csv.py:42-44 | the publication instant renders in ISO 8601 to the second |
| Export.RowUrl | src/export_csv.py:45 | the url cell is the url |
| Export.MissingPracticeIsEmpty | src/export_csv.py:47-52 | a posting never given an internship verdict exports an empty `isPractice` cell |
| Export.EnumColumnsIdentify | src/export_csv.py:40-41 | equal position (website) cells mean equal positions (websites), and conversely |
| Export.PublishedDateReadsBack | src/export_csv.py:42-44 | a midnight posting exports `YYYY-MM-DDT00:00:00`, whose date part parses back to the day |
| Export.Store | src/export_csv.py:83 | `uniq[key] = j` replaces the job of a known url in place and adds a new url at the end |
| Export.FirstOrderMembers | src/export_csv.py:78-84 | the reference order lists each non-empty input url exactly once |
| Export.FirstOrderOrdered | src/export_csv.py:78-84 | the reference order follows the first appearance of each url |
| Export.DedupUrls | src/export_csv.py:78-84 | the urls the dedup keeps are the reference order |
| Export.DedupLast | src/export_csv.py:78-84 | every kept posting is the last input posting with its url |
| Export.DedupKeepsLastPerUrl | src/export_csv.py:78-84 | exactly one posting per distinct non-empty url, the last one with it, empty urls dropped, ordered by first appearance |
| Export.DedupOfDistinct | src/export_csv.py:78-84 | postings with distinct non-empty urls pass through unchanged |
| Export.DedupIdempotent | src/export_csv.py:78-84 | applying the dedup twice equals applying it once |
| Export.RegistryRoundTrip | src/export_csv.py:14-19 | the registry maps each of the four names to its spider and no other name to it |
| Export.SelectNames | src/export_csv.py:62 | no more names than comma-separated parts |
| Export.SelectNamesMember | src/export_csv.py:62 | a name is chosen exactly when some non-blank part strips and lower-cases to it |
| Export.SelectNamesOne | src/export_csv.py:62 | one part gives nothing when blank and otherwise its stripped, lower-cased text |
| Export.SelectNamesAppend | src/export_csv.py:62 | the names of two runs of parts are the names of each run, in order |
| Export.SpiderNames | src/export_csv.py:62 | no requested name is empty, and a name is requested exactly when some non-blank comma-separated part of the setting strips and lower-cases to it |
| Export.SelectNamesCanonical | src/export_csv.py:62 | canonical names pass the strip, lower and empty filter unchanged |
| Export.SpiderNamesOfJoin | src/export_csv.py:62 | listing canonical names (lower case, no spaces at the ends, no comma) with commas requests exactly those names |
| Export.DefaultRunsAll | src/export_csv.py:61-62 | without a `SPIDERS` setting the four registered spiders are requested once each, in registry order |
| Export.GatherMembers | src/export_csv.py:66-76 | a posting is collected exactly when a requested registered spider returned it normally |
| Export.GatherAppend | src/export_csv.py:66-76 | the names are processed in order, each contribution appended after the earlier ones |
| Export.RaisingSpiderIsolated | src/export_csv.py:72-76 | a spider that raises collects exactly what a spider returning nothing would, and the others are unaffected |
| Export.UnregisteredSkipped | src/export_csv.py:68-70 | removing an unregistered name from the request changes nothing |
| Export.ExportRows | src/export_csv.py:86 | every exported row has the thirteen columns in header order |
| Export.ExportUrlsUnique | src/export_csv.py:78-86 | with dedup on, the url column holds no empty cell and no repeated cell |
| Export.ExportWithoutDedup | src/export_csv.py:78-86 | with dedup off, one row per collected posting, in collection order |

## Left out

- Playwright-driven LinkedIn UI path (`_run_ui`, login, scrolling): browser automation. Its outcome is a parameter of `LinkedinGuest.Run`, either the postings it returned or an exception.
- BeautifulSoup parsing: the listing cards and detail pages arrive as records of the selected fields (`Linkedin.Card`, `JobModel.DetailDoc`). The parsers are parameters of the guest walk.
- `time.sleep`, `random.random()` and the random user agent: pauses and randomness do not change any result. The agent is a parameter of the header functions.
- Configuration loading (`src/utils/config.py`) and `LinkedInSpider.__init__`: the settings are given as a `Linkedin.Config`.
- MongoDB storage (`src/services/job_service.py`), `src/index.py` and writing the CSV file: I/O. The model ends at the rows handed to the CSV writer.
- Console messages (`print`): no effect on results.
- Microseconds of `datetime.utcnow()`: instants are whole seconds. The export truncates to seconds anyway.
- Unicode beyond Latin-1 for `lower()`, `upper()` and whitespace, and digits outside ASCII for `isdigit()`. Text.UpperChar leaves 'ß' as it is, where Python's `upper()` gives "SS" and lengthens the text.
- Py.IsPrintable: outside Latin-1, every character except the Unicode spaces counts as printable. CPython's `isprintable()` is false for format characters (such as U+200B, U+200E, U+200F, U+2060 and U+FEFF), private-use characters (U+E000-U+F8FF), surrogates and unassigned code points, and `repr` writes those as `\uXXXX` escapes. So `Py.StrRepr`, `Py.Repr` and `Py.Str` keep such characters verbatim where Python escapes them. This reaches the CSV through `str` of a dict `empresa` (src/classes/job.py:58, src/export_csv.py:45). The Unicode character database is not modelled.
- Calendar.ParseYmd: reads ASCII digits only. `strptime` matches `%Y` as four Unicode decimal digits, and the second digit of a `%d` from 10 to 29 likewise (`%m` is ASCII only). So full-width "２０２４-01-01" parses as 2024-01-01, whereas the model raises ValueError. The same holds where it serves src/classes/job.py:63 and src/classes/job.py:113.
- JSON objects with repeated keys: dicts are taken to have distinct keys.
- Network nondeterminism: each fetch helper call sees a given sequence of outcomes, and each spider's `Api` answers a request the same way every time.
- Exceptions other than those listed in `Py.Exc`, such as `KeyboardInterrupt` or memory errors.
- Py.Json: has no float case; every JSON number is an integer. A float would change some results: Laborum's `totalSearched // size` would be a float, and `range` would raise TypeError on it; Trabajando's `range(cantidadPaginas)` would raise TypeError; and `str` of an id such as `123.0` would keep its `.0` in a url.
- Export.RunSpider: a spider returning `None` is not modelled. The spiders always return a list, so `run() or []` never takes its second operand.
- Export.SelectNames: its own contract states only a length bound; `SelectNamesMember`, `SelectNamesOne` and `SelectNamesAppend` state its contents.
- Py.StrRepr: does not state that the escapes decode back to the text; it states the quote choice and that text needing no escape stands verbatim. Printability beyond Latin-1 is as the Py.IsPrintable line says.
- Text.Strip: does not state that only whitespace is removed, nor that the result is a contiguous slice of the input.
- Linkedin.DateFromText: when `timedelta` or the subtraction would overflow, the source raises and swallows the error and falls back to `now`. The model bounds the interval explicitly (`MaxDeltaDays`, start of the calendar) rather than modelling the exception.
