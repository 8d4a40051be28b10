# grid-proxy, modelled in Dafny

This project models the sequential logic of grid-proxy, a set of small Node.js scripts
around the GRID esports GraphQL API, and proves properties of it:

- **The tournament dump** (`save_tournaments.js`). A cursor-driven pagination loop.
  It starts from a null cursor and appends each page's nodes to an accumulator.
  It retries the same cursor when the upstream rate-limits, aborts on any other error,
  and stops right after the page that has no next page. The snapshot it then writes is
  `{exportedAt, count, items}`.
- **The snapshot scripts** (`scripts/`). `list-by-year.js` and `export-by-year-csv.js`
  validate a four-digit year argument and keep the items whose name contains it,
  case-sensitively. `list-by-name.js` takes an optional query and keeps the items whose
  name contains it, ignoring case. The two listing scripts print the number found and at
  most 50 lines. `export-by-year-csv.js` instead writes a CSV whose text fields are quoted
  as in section 2 of RFC 4180.
- **The proxy helpers** (`server.js`). These are the upstream request headers
  (`authHeaders`), the millisecond-free ISO timestamps (`isoUTC`), the query time
  windows and the reshaping of upcoming series into the frontend's match records.

The page fetcher is not modelled. A run is given the sequence of responses it will
receive, one per fetch: a page (`nodes`, `hasNextPage`, `endCursor`) or a thrown error
with its message. If that sequence runs out before the loop stops, the run ends with
`OutOfResponses`. The real script would keep on fetching.

Files: `common.dfy` (shared values), `text.dfy` (`includes`, `toLowerCase`, `^\d{n}$`,
`join`, and a `Split` that reads joined lines back), `seqs.dfy` (`filter`), `harvester.dfy`, `cli.dfy` (the year argument
and year filter shared by two scripts), `listing.dfy` (the first-50 report),
`list_by_year.dfy`, `list_by_name.dfy`, `export_csv.dfy`, `proxy.dfy`.

Behaviours of the code worth noting:

- The upstream marker `ENHANCE_YOUR_CALM` is matched case-sensitively. Only "rate limit"
  and "unavailable" are matched in any capitalisation.
- An empty collection still costs one fetch, because the upstream answers with one empty
  last page. So the number of fetches is the record count divided by the page size,
  rounded up, but at least 1 (`Harvester.PageCount`).
- A CSV has exactly one line per row only when no field holds a line break. The id is
  written raw, so reading a row back also needs an id without a comma. The CSV lemmas
  take these as hypotheses.

## Model

| member | source | states |
|---|---|---|
| `Harvester.IsRateLimitError` | save_tournaments.js:22-29 | a missing message is read as the empty string and is not a rate-limit error |
| `Harvester.RateLimitMarkerAnywhere` | save_tournaments.js:24-28 | a message holding `ENHANCE_YOUR_CALM`, or any capitalisation of "rate limit" or "unavailable", at any position is a rate-limit error |
| `Harvester.NoMarkerIsFatal` | save_tournaments.js:22-29 | a message in which none of the three markers occurs at any position is not a rate-limit error, so it is fatal |
| `Harvester.Drive` | save_tournaments.js:74-109 | the loop from any state makes at most one fetch per response; a snapshot's `count` is the length of its `items`, it carries the given timestamp, and it keeps what had already been accumulated as its prefix |
| `Harvester.Harvest` | save_tournaments.js:70-119 | the imperative loop (null cursor, page 0, empty accumulator, `break`/`continue`) produces exactly the end and fetch log of `Drive`; its first fetch is page 1 with a null cursor; a snapshot holds the nodes of the pages received, in order, with `count` equal to their number; a failure carries a non-rate-limit error |
| `Harvester.DumpTournaments` | save_tournaments.js:14-18 | without an endpoint or an auth value the script stops before any fetch; otherwise it is the harvest |
| `Harvester.DriveOutcome` | save_tournaments.js:82-108 | a finished run's items are the accumulator followed by the nodes of every page consumed; a failed run's last consumed response is the non-rate-limit error it reports |
| `Harvester.StopsAtFirstStop` | save_tournaments.js:78-108 | the loop stops at the first last page or fatal error and never fetches past it: exactly one fetch per response up to it; a last page yields the snapshot of all nodes so far, a fatal error yields failure and no snapshot |
| `Harvester.RunsOutWithoutStop` | save_tournaments.js:78-109 | while no response stops the loop, it fetches once per response and never finishes |
| `Harvester.FetchTrace` | save_tournaments.js:79-104 | the first fetch uses the current cursor and the next page number; after a page the next fetch logs that page's `endCursor` as its cursor, with the page number plus one; after a rate-limit error it repeats the same page number and cursor; a fetch follows only a response that does not stop the loop |
| `Harvester.RetriesChangeNothing` | save_tournaments.js:98-105 | taking every rate-limit error out of the responses does not change how the run ends, so a retried page is accumulated exactly once |
| `Harvester.CompleteHarvest` | save_tournaments.js:78-93 | given a collection served in pages of any positive size, the harvest returns every record in order, with one fetch per page |
| `Harvester.CompleteHarvestDespiteRetries` | save_tournaments.js:98-105 | the same collection with rate-limit errors interleaved anywhere still yields every record exactly once, in order |
| `Harvester.HundredTwentyInPagesOfFifty` | save_tournaments.js:78-93 | 120 records in pages of 50 take three fetches and yield all 120 |
| `Harvester.PageCount` | save_tournaments.js:88-93 | the page count is at least 1; for a non-empty collection it is the smallest number of pages of the given size that holds every record, and an empty collection still takes one (empty) page |
| `Text.Contains` | save_tournaments.js:25-27 | `includes` is true exactly when the needle occurs at some position of the text |
| `Text.ToLower` | scripts/list-by-name.js:5 | `toLowerCase` keeps the length and maps each character through the ASCII case mapping |
| `Text.MatchesDigits` | scripts/export-by-year-csv.js:13 | `^\d{n}$` accepts exactly the strings of n decimal digits |
| `Text.SplitJoin` | scripts/export-by-year-csv.js:31-34 | `join` is undone by `split`: splitting lines joined by a separator that none of them holds gives the lines back |
| `Seqs.FilterMembers` | scripts/list-by-year.js:15 | `filter` (`Seqs.Filter`) keeps only elements of the input that satisfy the predicate and keeps every element that does |
| `Seqs.FilterConcat` | scripts/list-by-year.js:15 | `filter` preserves order: it distributes over concatenation |
| `Seqs.FilterCount` | scripts/list-by-name.js:7-9 | `filter` keeps every occurrence of an accepted element and none of a rejected one |
| `Seqs.FilterKeepsAll` | scripts/list-by-name.js:7-9 | a predicate true of every element keeps the whole sequence |
| `Cli.YearArgument` | scripts/export-by-year-csv.js:12-16 | a year argument is accepted iff it is present and exactly four decimal digits |
| `Cli.NamedInYear` | scripts/export-by-year-csv.js:20-21 | the selection holds only snapshot items whose name contains the year, and every such item |
| `Cli.NamedInYearConcat` | scripts/list-by-year.js:15 | the year selection keeps the snapshot's order |
| `Listing.DisplayLine` | scripts/list-by-year.js:19 | a printed line is the id, two spaces and the name, and both can be read back from it |
| `Listing.Report` | scripts/list-by-year.js:17-20 | the reported count is the number of all results; the printed lines are the first min(50, count) results, in order, each as id, two spaces, name |
| `ListByYear.List` | scripts/list-by-year.js:8-20 | a bad or missing year is a usage error and nothing else is; otherwise the full match count and the first 50 matching items' lines, in order |
| `ListByYear.PrintedAreMatches` | scripts/list-by-year.js:15-19 | every printed line belongs to a snapshot item whose name contains the year |
| `ListByName.Query` | scripts/list-by-name.js:5 | a missing query argument becomes the empty query; a present one is lower-cased, so the query holds no upper-case letter |
| `ListByName.Matching` | scripts/list-by-name.js:7-9 | the results hold only items whose lower-cased name contains the query, and every such item |
| `ListByName.List` | scripts/list-by-name.js:4-14 | the count of all matches, then the lines of the first 50 matches in order |
| `ListByName.NoQueryListsEverything` | scripts/list-by-name.js:5-9 | without a query every item matches, in the snapshot's order |
| `ListByName.QueryCaseIgnored` | scripts/list-by-name.js:5 | two queries that differ only in capitalisation list the same thing |
| `ListByName.MatchIgnoresCase` | scripts/list-by-name.js:8 | an item matches iff the lower-cased query occurs somewhere in its lower-cased name |
| `ExportByYearCsv.ToRow` | scripts/export-by-year-csv.js:22-26 | a row keeps the id, the name and a present short name; a missing short name becomes the empty string |
| `ExportByYearCsv.ToRows` | scripts/export-by-year-csv.js:20-26 | one row per selected item, in order, each that item's row |
| `ExportByYearCsv.Esc` | scripts/export-by-year-csv.js:29 | an escaped field starts and ends with a double quote; `null` or `undefined` becomes `""` |
| `ExportByYearCsv.ParseQuotedBodyDoubled` | scripts/export-by-year-csv.js:29 | the quote doubling (`DoubleQuotes`) is undone by reading a doubled quote as one quote up to the closing lone quote, whatever follows it unless that starts with a quote |
| `ExportByYearCsv.EscRoundTrip` | scripts/export-by-year-csv.js:29 | reading an escaped field back (a doubled quote read as one, a lone quote closing it) gives the original string and leaves what follows |
| `ExportByYearCsv.RowLineShape` | scripts/export-by-year-csv.js:33 | a row line (`RowLine`) is the raw id, a comma, the escaped name, a comma and the escaped short name |
| `ExportByYearCsv.RowRoundTrip` | scripts/export-by-year-csv.js:33 | a row line (raw id, escaped name, escaped short name, comma-separated) reads back as the row when the id has no comma |
| `ExportByYearCsv.CsvRoundTrip` | scripts/export-by-year-csv.js:31-34 | provided no id holds a comma and no field a line break, the CSV (`Csv`) splits into the header and one line per row, so rows + 1 lines with no trailing newline, and reads back as the rows |
| `ExportByYearCsv.Export` | scripts/export-by-year-csv.js:12-38 | a bad or missing year is a usage error and nothing else is; otherwise the file `tournaments_<year>.csv`, whose text is the CSV of the rows of the matching items in snapshot order, and whose row count is the number of those items |
| `ExportByYearCsv.ExportRoundTrip` | scripts/export-by-year-csv.js:20-37 | provided no selected item's id holds a comma and none of its fields a line break, the written CSV reads back as the rows of the items whose name contains the year, in snapshot order, and has one line more than it has rows |
| `Proxy.AuthHeaders` | server.js:10-22 | always a `content-type` header, `application/json` unless the custom header name is itself `content-type`; a configured header name and value add exactly that header; otherwise an API key adds `authorization: Bearer <key>`; otherwise nothing else |
| `Proxy.EndsWithMillisShape` | server.js:60 | the pattern `\.\d{3}Z$` matches exactly when the text's last five characters are a dot, three decimal digits and `Z` |
| `Proxy.IsoUTC` | server.js:60 | the result differs from the input exactly when the input ends in `.dddZ`, and then it is the input with the four characters `.ddd` removed before the final `Z`; any other text is returned unchanged |
| `Proxy.IsoUTCDropsMillis` | server.js:60 | for any instant, `isoUTC` of its `toISOString` text is `YYYY-MM-DDTHH:mm:ssZ`, and applying it again changes nothing |
| `Proxy.MatchesWindow` | server.js:98-103 | the window starts now and lasts `hours` × 3,600,000 ms; `hours` defaults to 24 and `first` to 50 |
| `Proxy.HealthWindow` | server.js:86-88 | the health sample covers the next six hours (21,600,000 ms) and asks for three series |
| `Proxy.TeamName` | server.js:109-110 | the name of the team at that index when the list, the team, its base info and its name are present, and the empty string otherwise |
| `Proxy.NormalizeNode` | server.js:107-121 | `live` is false and `s1`, `s2`, `map` are empty; id and times pass through; the format is non-empty iff the format id is present; the event name is the tournament's name and the two team names are those of the first and second teams, each the empty string when missing |
| `Proxy.FormatRoundTrip` | server.js:114 | the `BO<id>` format label gives back exactly the format id, and no label means no id |
| `Proxy.NormalizeEdges` | server.js:104-121 | missing edges read as none; the output has one record per edge, in order, each the normalised node; any edge without a node makes the handler fail |

## Left out

- The GraphQL transport is left out: `fetchPage`, `gql`, `gqlAuthPing`, the
  Express routes and `listen`, and every HTTP status and JSON parse. The page fetcher is a
  given sequence of responses, so a fetch that never returns is not modelled.
- The harvest does not terminate if the upstream stays rate-limited or never sends a
  last page. The model instead ends with `OutOfResponses` when the supplied responses run
  out.
- `sleep` and the two delays are not modelled. They are timing only.
- Environment loading is not modelled. `PAGE_SIZE`, the delays, the auth header name and
  the `Number(...)` parsing of query parameters are out too. `hours` and `first` are
  given as naturals, so negative, fractional or non-numeric values are not modelled.
- The clock is not modelled. `new Date()` is a parameter: the snapshot timestamp as text,
  or "now" in epoch milliseconds. Converting epoch milliseconds to a calendar instant is
  left out.
- File reads and writes and `JSON.parse`/`JSON.stringify` are not modelled. The scripts
  work on already-parsed items.
- Console output is modelled only in part. The harvest's per-fetch progress line is the
  fetch log. The listing scripts' output is the found count and the first 50 `id  name`
  lines (`Listing.Report`). The wording around the count, the usage and error messages
  other than the constants kept, and the other log lines are not modelled.
- `Text.ToLower` covers ASCII letters only. JavaScript's full Unicode case mapping is not
  modelled.
- `Harvester.FetchTrace` states the cursor as the progress line logs it. `fetchPage` sends
  an empty-string cursor as `null`, a difference the model does not capture.
- The GraphQL query texts are opaque constants and are not modelled.
