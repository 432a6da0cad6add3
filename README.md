# Komga source adapter, modelled in Dafny

This project models the translation logic of `komga.ts`. That file is the plugin that lets the
lnReader app read novels from a Komga server. It covers four things:

- the URLs the plugin sends for the series listing (`popularNovels`) and for search
  (`searchNovels`);
- the novel items built from a listing response (`getSeries`);
- the fields of a novel read from the series record (`parseNovel`): the author line, the genre
  line, the status table and the summary;
- the chapter list built from the books of a series and their reading-order manifests.

HTTP and JSON parsing are not modelled. The model takes the parsed records as datatypes:
`Listing.SeriesSummary`, `Novel.Series`, `Chapters.FetchedBook` (a book paired with the manifest
fetched for it) and `Urls.Filters`.

Modules, one per file:

- `Wrappers`: `Option` and `Result`.
- `Strings`:
  - JavaScript's `split` for a non-empty separator, and `join`;
  - decimal formatting of numbers in template literals;
  - a first-occurrence search that the string lemmas are stated with.
- `Urls`:
  - the listing and search URLs, and the series path and thumbnail URL;
  - a query-string reader (`ParseQuery`, `QueryOf`), defined here so that the lemmas can say
    which parameters a built URL carries.
- `Listing`: `getSeries`, as a method with a loop.
- `Novel`: the author `filter`/`reduce`, `join(", ")` for genres, and the status `switch`.
- `Chapters`: the chapter path rewrite and the chapter labels. The nested chapter loop is a method
  proved against a recursive specification.
- `Plugin`: `parseNovel` as a whole, filling the host's novel record field by field.

Chapter labels are `"<i> - <book title>"`, where `i` counts from 0 and restarts for every book.
A label carries no total page count and no subtitle.

## Model

| member | source | states |
|---|---|---|
| Urls.SeriesPath | komga.ts:47 | The path handed to the host for a series is the 14-character prefix `api/v1/series/` followed by exactly the id. |
| Urls.ThumbnailUrl | komga.ts:48 | A cover URL is the base URL, then the series path, then `/thumbnail`. |
| Urls.ListingUrlAsWritten | komga.ts:63 | As written, the listing URL fails (a `TypeError`) exactly when a filter object is given without a `library` entry. Otherwise it is the corrected listing URL. |
| Urls.DeclaredFiltersFail | komga.ts:157-165 | The filter object the plugin declares, whose `library` entry is commented out, makes every listing request fail. |
| Urls.ListingUrlRendersParams | komga.ts:63 | The listing URL is the base URL, then `api/v1/series?`, then the listing parameters rendered as `key=value` pairs joined by `&`. |
| Urls.ListingParamsOrdered | komga.ts:63 | Listing parameter keys have strictly increasing rank: page, library_id, read_status, status, sort. So each key appears at most once, always in that order. |
| Urls.ListingParamsContent | komga.ts:63 | The first listing parameter is `page`, holding `pageNo - 1` (which reads back as that integer). The last is `sort`, holding `lastModified,desc` for the latest view and `name,asc` otherwise. Each optional key is present if and only if its filter value is non-empty, and then it carries that value. |
| Urls.ListingQueryParses | komga.ts:63 | Take a base URL without `?` or `#`, and filter values without `&` or `#`. Reading the query the listing URL sends gives back exactly the listing parameters. |
| Urls.ListingUrlNoFragment | komga.ts:63 | A listing URL built from a base URL and filter values without `#` contains no `#`, so the whole URL is sent. |
| Urls.ParseRenderQuery | komga.ts:63 | When keys contain neither `&` nor `=` and values contain no `&`, a query rendered as `key=value` pairs joined by `&` reads back as the same parameter list. |
| Urls.SearchRendersParams | komga.ts:139 | The search URL is the base URL, then `api/v1/series?`, then the parameters `search` (the term) and `page` (`pageNo - 1`) rendered as `key=value` pairs joined by `&`. |
| Urls.SearchQueryParses | komga.ts:139 | Take a base URL without `?` or `#`, and a term free of `&` and `#`. The search URL then sends exactly two parameters: `search` with the term and `page` with `pageNo - 1`. |
| Urls.SearchUrlNoFragment | komga.ts:139 | A search URL built from a base URL and a term without `#` contains no `#`, so the whole URL is sent. |
| Urls.SearchTermNotEscaped | komga.ts:139 | The term is inserted unescaped. An `&` inside it ends the `search` value, and the text after the `&` is read as a parameter of its own, between `search` and `page`. |
| Urls.SearchTermFragment | komga.ts:139 | The term is inserted unescaped. A `#` inside it starts the URL fragment, which is never sent. So the request carries only `search`, holding the text before the `#`, and no `page` parameter. |
| Urls.QueryBeforeFragment | komga.ts:139 | The query a request sends is the text between the path's `?` and the first `#`. |
| Strings.FindFirst | komga.ts:120 | The search returns nothing if and only if the pattern does not occur. Otherwise it returns an occurrence with no earlier one. |
| Strings.Split | komga.ts:120 | `split` gives at least one piece. Joining the pieces with the separator gives back the input, and the last piece contains no separator. |
| Strings.SplitLast | komga.ts:120 | The last piece (`pop()`) is the whole string when the separator does not occur. Otherwise it is the suffix that directly follows an occurrence of the separator. |
| Strings.SplitJoin | komga.ts:85 | Splitting a join gives back the parts, provided no part, followed by a prefix of the separator, contains the separator. |
| Strings.SplitJoinComma | komga.ts:85 | A list of at least one part, where no part contains `", "`, is recovered by splitting its `join(", ")` at `", "`. |
| Strings.NatToString | komga.ts:119 | A counter's decimal text is canonical: non-empty, digits only, and with no leading zero unless it is `0` itself. |
| Strings.IntToString | komga.ts:63 | A page index's decimal text is canonical. It starts with `-` if and only if the number is negative. The digits after any sign are non-empty, with no leading zero unless they are `0` itself, and there is never a `-0`. |
| Strings.ParseNatToString | komga.ts:119 | The decimal text of a counter reads back as that counter. |
| Strings.ParseIntToString | komga.ts:63 | The decimal text of `pageNo - 1` reads back as that integer. |
| Strings.IntToStringChars | komga.ts:63 | The decimal text of an integer contains no character other than `-` and digits, so in particular no `&`. |
| Listing.SeriesIdOf | komga.ts:47 | A path is recognised as a series path if and only if it starts with `api/v1/series/`. |
| Listing.SeriesPathReadsBack | komga.ts:47 | A series path gives back the id it was built from. |
| Listing.SeriesPathInjective | komga.ts:47-48 | Different series ids give different paths and different cover URLs. |
| Listing.GetSeries | komga.ts:44-50 | One item per element of `content`, with the same length and order. Each item keeps the series name. Its path is the series path of that series' id, and it reads back as that id. Its cover is the base URL, then that path, then `/thumbnail`. |
| Novel.WriterNames | komga.ts:82 | A name is listed if and only if some credit with role `writer` carries it, so non-writer roles are excluded. The filter never yields more names than there are credits. |
| Novel.WriterNamesAppend | komga.ts:82 | The filter keeps order: the writers of a concatenation are the writers of each part, in turn. |
| Novel.DropLeadingEmpty | komga.ts:83 | The result is a suffix of the names, and every name dropped in front of it is empty. It is either empty or starts with a non-empty name. |
| Novel.FoldAfterFirst | komga.ts:83 | Once the accumulator is non-empty, the reduce appends every further name after a `", "`. |
| Novel.FoldIsJoin | komga.ts:81-83 | The reduce equals `join(", ")` of the writer names once the empty names in front are dropped. Empty names before the first non-empty one leave no separator. |
| Novel.AuthorStringJoins | komga.ts:81-83 | When no writer name is empty, the author line is the writer names, in list order, joined by `", "`. |
| Novel.NoWriters | komga.ts:81-83 | Credits without a `writer` role give the empty author line. |
| Novel.AuthorStringSplits | komga.ts:81-83 | Assume at least one writer, and writer names that are non-empty and free of `", "`. Splitting the author line at `", "` gives the writers back in order, so no separator leads, trails or doubles. |
| Novel.GenresSplit | komga.ts:85 | A non-empty list of genres free of `", "` is recovered, in order, by splitting the genre line at `", "`. |
| Novel.GenresShort | komga.ts:85 | No genres give the empty line. One genre gives that genre alone, with no separator. |
| Novel.StatusOf | komga.ts:87-102 | The status table is total. It maps ENDED to Completed, ONGOING to Ongoing, ABANDONED to Cancelled and HIATUS to OnHiatus, each if and only if the input is that exact string. Every other value maps to Unknown. |
| Novel.StatusRoundTrip | komga.ts:87-102 | On the four known server statuses the table is one-to-one and can be inverted. Unknown is the only result with no server status behind it. |
| Chapters.ChapterPathSpec | komga.ts:120 | With no `api/v1` in the href, the chapter path is `api/v1` followed by the whole href. Otherwise it is the suffix of the href that starts at the last occurrence of `api/v1`. |
| Chapters.ChapterPathIdempotent | komga.ts:120 | Rewriting a rewritten chapter path leaves it unchanged. |
| Chapters.LabelReadsBack | komga.ts:119 | A label `<i> - <title>` gives back both the counter `i` and the book title. |
| Chapters.BookChapters | komga.ts:117-123 | A book yields one chapter per page of its reading order. |
| Chapters.ChaptersCount | komga.ts:112-124 | The chapter count is the sum of the reading-order lengths of all books. |
| Chapters.OffsetStep | komga.ts:112-124 | The chapters of book `b + 1` start right after the chapters of book `b`. |
| Chapters.ChapterAt | komga.ts:112-124 | Page `k` of book `b` is the chapter at position offset(b) + k. Its label is `k - <title of book b>`, with the counter restarting for each book, and its path is that page's href rewritten. |
| Chapters.BuildChapters | komga.ts:106-124 | The nested loop, with its per-book counter `i`, builds exactly the book-major, page-minor chapter list, with one chapter per page in total. |
| Plugin.ParseNovel | komga.ts:68-128 | The novel record keeps the given path and takes the series name. It also holds the author line, the thumbnail cover, the genre line, the mapped status, the summary and the chapter list of the books. |

## Left out

- `makeRequest` (komga.ts:12-35), every network fetch and every `JSON.parse` are left out. The
  parsed records are parameters. The URLs of the books fetch (komga.ts:108) and of the manifest
  fetches (komga.ts:113) are not modelled. The books arrive already paired with their manifests.
- `parseChapter` (komga.ts:130-133) is left out: it returns the fetched text unchanged.
- The `filters` declaration (komga.ts:144-177) and the plugin metadata (komga.ts:6-10) are left
  out. Only the filter values reach the model, through `Urls.Filters`.
- async/await ordering is left out. The fetches are sequential and no state is shared.
- Records with missing fields are left out. The datatypes always hold every field, and
  `metadata.status` is a string. In JavaScript there are two cases, and neither is modelled:
  - A missing leaf value is read as `undefined`. A missing `s.id` gives the path
    `api/v1/series/undefined` (komga.ts:47). A missing name, summary or book title gives
    `undefined`, or the text `undefined` inside a label or the author line (komga.ts:46, 80, 83,
    104, 119).
  - A missing object or array raises a `TypeError`. This covers `metadata`, `booksMetadata`,
    `authors`, `genres`, `readingOrder` and a page's `href`.
- Strings.IntToString: `pageNo` is modelled as an unbounded integer, with no fraction, NaN or
  exponent form. JavaScript numbers are doubles, exact only for magnitudes up to 2^53. Beyond that,
  `pageNo - 1` rounds to a neighbouring double, and `${…}` prints the shortest digits that read back
  as that double (2^60 prints as `1152921504606847000`). Numbers of 10^21 and above are printed in
  exponent notation. The model computes the exact difference and prints all of its digits, so it
  matches JavaScript only while |pageNo| is at most 2^53.
- Strings.NatToString: the chapter counter `i` (komga.ts:122) is a double too, and `i++` stops
  increasing once it reaches 2^53. The model's counter keeps counting. The two agree while a book
  has at most 2^53 pages.
- Strings.ParseIntToString: it proves that the exact decimal text of `pageNo - 1` reads back as
  that integer. For |pageNo| above 2^53 the text JavaScript sends is a different, rounded number,
  as the line above explains.
- Urls.ListingParamsContent: its claim that `page` holds `pageNo - 1` holds for JavaScript only while
  |pageNo| is at most 2^53. The same bound applies to the `page` values in
  Urls.ListingQueryParses, Urls.SearchQueryParses and Urls.SearchTermNotEscaped.
- Urls.QueryOf: it cuts the URL at the first `#`, because a request never sends the fragment. It
  does not percent-decode. A server decodes `%xx` escapes and reads `+` as a space. So a term or
  filter value containing `%` or `+` is read differently by a real server than by `Urls.ParseQuery`.
- Novel.StatusOf: the model uses an enumeration of the host's statuses, not the strings that the
  host's enum stands for.
- The following are readers defined by the model, not code of `komga.ts`:
  - `Urls.ParseQuery`, `Urls.ParseParam`, `Urls.QueryOf` and `Urls.BeforeFragment`;
  - `Strings.ParseNat` and `Strings.ParseInt`;
  - `Listing.SeriesIdOf`;
  - `Chapters.LabelIndex` and `Chapters.LabelTitle`.

  They exist so that round trips can state what a built string carries.
- JavaScript strings are modelled as sequences of `char`. Here a `char` is a Unicode scalar
  value, so strings holding lone surrogates are outside the model. An astral character is one
  `char` here but two UTF-16 code units in JavaScript. This does not change any `split` or `join`
  result, because every separator (`api/v1`, `", "`, `&`, `=`, `?`, `#`) is ASCII.

## Findings

| source | as written | input that shows it | evidently intended | confidence | as-written member | corrected member |
|---|---|---|---|---|---|---|
| komga.ts:63 | `filters?.library.value` guards only `filters`. The declared filters have their `library` entry commented out (komga.ts:157-165), so reading `.value` of the missing entry raises a `TypeError`. | `popularNovels(1, {showLatestNovels: false, filters: {read_status: {value: ""}, status: {value: ""}}})`: `filters` is non-null and has no `library` key. | A filter object without a library entry adds no `library_id` parameter, and the URL is still built. | not executed | Urls.ListingUrlAsWritten | Urls.ListingUrl |
