# Book finder: search merging, record normalisation, catalog export and video extraction

This project models the server-side core of a book discovery web application
in Dafny and proves properties of that model. The application has four
endpoints whose logic is modelled here.

- **Multi-source search** (`Aggregator`, `multi_search.dfy`). The endpoint queries:
  - the catalog search (`openlibrary`);
  - the Google Books search (`google`).

  It then walks the settled results in the order the requests were pushed.
  Along the way it:
  - records a per-source status object;
  - keeps a running maximum of `num_found`;
  - merges the books, skipping any whose key (lower-cased title, `_`, lower-cased first author) is already present;
  - decorates each kept book with its source and three search links.

  Finally it sorts the list stably by source weight and popularity, and composes a summary message.
- **Google Books normalisation** (`GoogleBooks`, `google_books.dfy`). The endpoint:
  - clamps the page size to 40;
  - derives the start index;
  - rewrites every volume into the catalog's record shape, with its defaults, singleton lists, the `https:` cover rewrite, the `/works/GB_` key and the price text.
- **Catalog export** (`NoteExport`, `add_book.dfy`). The endpoint classifies:
  - the first ten subjects, each through a first-match-wins chain of genre tests;
  - the subjects and the title for series markers.

  It deduplicates the genres, defaulting to `Fiction`. It then assembles the page properties, each optional one present only when its field is truthy, and hands them to the page-creation call.
- **Video extraction** (`VideoExtract`, `tiktok.dfy`). The endpoint:
  - checks the link;
  - runs the book-mention patterns' captures through a length window and a case-insensitive seen-set;
  - tags each candidate's confidence;
  - answers with at most five candidates, or with up to three search-term suggestions.

Two shared modules hold what the endpoints use from the JavaScript runtime:

- `JsText` (`js_text.dfy`) models these string operations:
  - ASCII `toLowerCase`, `includes`, `indexOf`, `replace` of the first occurrence;
  - `split`/`join`, `trim`, the UTF-16 `length`;
  - `parseInt`, number printing and `encodeURIComponent`;
  - `decodeURIComponent`, the partner that reads an encoded component back.
- `JsArray` (`js_array.dfy`) models these array operations:
  - the stable `Array.prototype.sort` with a two-level comparator;
  - first-seen deduplication by key and a key set;
  - a push-if-present loop (`Collect`).

The code that changes state step by step is imperative Dafny. It is proved against specification functions, about which the lemmas then prove what the endpoints promise. That code is:
- the merge loop: `Aggregator.MergeDocs`, `Aggregator.Absorb`, `Aggregator.Combine`;
- the classification loop: `NoteExport.Classify`;
- the conditional property assembly: `NoteExport.BuildProperties`;
- the candidate loop with its seen-set: `VideoExtract.ExtractCandidates`;
- the handlers.

The Google Books transform is a single map of expressions. It is modelled as functions.

Everything outside the process is a parameter:
- the outbound requests;
- the Google Books answer;
- the page-creation call;
- the current time;
- the fetched page;
- the pattern matcher.

Where the repository's design notes and the code disagree, the model follows the code. The one exception is the failure keying listed under "## Findings": there the handler uses the corrected keying, and the code's keying is modelled beside it. The disagreements are:
- **Duplicates.** The code keeps the first copy of a duplicate, and the catalog request is pushed first, so the catalog copy wins. The notes prefer the commercial source's copy.
- **Suggestions.** The code returns no external search suggestions with the merged results.
- **Subjects.** The classifier looks at ten subjects.
- **Series and audiobooks.** There is no series-word or audiobook handling beyond the tests shown.
- **Default genre.** When no genre matched, the notes default to Biography if a subject mentions biography or the record names a person, and to Fiction otherwise. The code never emits Biography: a `biography` subject is caught by the Non-Fiction branch, and when no subject matches, the genres are always `['Fiction']` (api/add-book.js:84-86). `NoteExport.BiographyNeverEmitted` and `NoteExport.FinalGenresShape` prove this.

## Model

| member | source | states |
|---|---|---|
| Aggregator.RequestedSources | api/multi-search.js:24 | `all` stands for the catalog and Google Books, in that order; any other value is split on commas into at least one field, no field holds a comma, and the fields join back to exactly the parameter |
| Aggregator.Queried | api/multi-search.js:26-44 | a source is queried exactly when its exact name is among the requested ones; at most two requests, the catalog's pushed first |
| Aggregator.DecorateKeepsRecord | api/multi-search.js:69-78 | an entry keeps the input record and names its source; its merge key is the record's; in each of the Amazon, Goodreads and Audible links, the searched parameter (read up to the next `&`) decodes back to exactly the title, a space and the first author |
| Aggregator.MergeDocs | api/multi-search.js:62-81 | the inner loop leaves exactly the first-seen deduplication of everything met so far followed by this source's decorated books |
| Aggregator.Absorb | api/multi-search.js:53-90 | one result advances the book list, the running maximum and the status object by exactly one step of their specifications |
| Aggregator.Combine | api/multi-search.js:49-90 | after the loop: the book list is the first-seen deduplication of all results' books, and no two share a merge key; `num_found` is the maximum over fulfilled results and at least 0; the status object is the one each result's outcome builds |
| Aggregator.CatalogCopyWinsDuplicates | api/multi-search.js:27-69 | when both sources return a book with the same merge key, the surviving entry is the catalog's |
| Aggregator.MaxFoundBounds | api/multi-search.js:50-60 | `num_found` is at least 0 and at least every fulfilled source's count, and when positive it equals one of them (a maximum, never a sum) |
| Aggregator.PutLookup | api/multi-search.js:56-88 | writing a key of the status object sets that key and leaves every other key as it was |
| Aggregator.PutSucceeded | api/multi-search.js:56-88 | writing a new key appends it to the object's key order, and adds it to the succeeded names exactly when its status is a success |
| Aggregator.StatusTableCorrect | api/multi-search.js:51-89 | with distinct sources, the status object has one key per issued request in push order; each key maps to its own result's status; the succeeded names are the fulfilled sources |
| Aggregator.OneFailureIsIsolated | api/multi-search.js:53-89 | with the catalog failing and Google Books fulfilled, the catalog is an error with `Search failed` and Google Books a success with its count; only Google Books is named in the message |
| Aggregator.RankedOrder | api/multi-search.js:93-103 | the sorted list is a permutation of the merged list; Google Books entries precede catalog entries, which precede any others; within one weight popularity never increases; entries of equal weight and popularity keep their merge order |
| Aggregator.MultiSearch | api/multi-search.js:12-113 | the handler's responses and their guards: 405 for a non-GET, 400 without a query, otherwise the envelope of maximum count, parsed offset (0 when not a number), ranked deduplicated books, status object, query and message; returned books have distinct keys and are ranked |
| Aggregator.NoSourceNoResults | api/multi-search.js:24-112 | when `sources` names neither source, nothing is fetched: no results, `num_found` 0 and the fixed no-results message |
| Aggregator.HandlerKeyingAgreesWhenAligned | api/multi-search.js:24-89 | whenever every requested name is issued in the order requested, as for the default `sources=all`, the status object the handler reports is exactly the one the source's keying of failures builds |
| Aggregator.StatusAsWrittenMislabels | api/multi-search.js:82-89 | as written, with `sources=google,openlibrary`, a fulfilled catalog and a failing Google Books: the failure is recorded under `openlibrary`, the catalog's success is lost and `google` is absent; keying by each result's own source reports both |
| Aggregator.AsWrittenAgreesWhenAligned | api/multi-search.js:82-89 | whenever the requested names line up with the issued requests (as for `sources=all`), the code's keying of failures agrees with keying by the result's own source |
| Aggregator.MislabelSettled | api/multi-search.js:24-46 | with `sources=google,openlibrary` the requests are still pushed catalog first, so the settled list is catalog then Google Books |
| Aggregator.RequestedGoogleFirst | api/multi-search.js:24 | `google,openlibrary` splits into Google Books then the catalog |
| GoogleBooks.SearchLimitClamp | api/google-books.js:23 | the page size asked for is the requested size up to 40 and never above 40 |
| GoogleBooks.StartIndexOfOffset | api/google-books.js:24 | a numeric offset is the start index; text in which no digit follows the leading white space and an optional sign gives 0 |
| GoogleBooks.Handle | api/google-books.js:12-78 | 405 for a non-GET, 400 without a query; a success exactly when the clamped request is answered; every 500 carries `Failed to search Google Books` |
| GoogleBooks.OneRecordPerItem | api/google-books.js:37-40 | a successful answer has exactly one record per volume in order; `num_found` is `totalItems` or 0; `start` is the requested start index |
| GoogleBooks.RecordShape | api/google-books.js:44-69 | every record: has source `google_books`; has the key `/works/GB_` followed by the volume's id, or by `undefined` without one; has a non-empty title; has `[language]` when the volume gives a non-empty language and `['en']` otherwise; has `[publisher]` when the volume gives a non-empty publisher and `[]` otherwise; gets the title and author placeholders exactly when the volume lacks them and otherwise keeps the volume's; has a ratings count and an average rating that default to 0; has the volume's page count when it is non-zero and none otherwise; has a price text, starting with `$`, exactly when the volume has a retail price |
| GoogleBooks.RecordsKeyedById | api/google-books.js:40-45 | the answer's records are the volumes' records one for one, each tagged, titled and keyed by its own volume's id; volumes with different ids get different keys |
| GoogleBooks.ListsPreserved | api/google-books.js:51-54 | identifiers come through one for one in order, or as an empty list; the categories come through unchanged, or as an empty list |
| GoogleBooks.CoverUsesHttps | api/google-books.js:55-56 | no cover exactly when there is no thumbnail; an `http:` thumbnail becomes `https:` with the rest unchanged; a thumbnail without `http:` is kept as is |
| GoogleBooks.YearOfDate | api/google-books.js:48 | a date beginning with four digits gives those digits' value as the year; no date gives no year |
| NoteExport.CoverUrl | api/add-book.js:36-37 | a cover URL exists exactly when the cover id is truthy, and it is on the catalog's cover server |
| NoteExport.Examined | api/add-book.js:45-46 | at most ten subjects, a prefix of the list: all of a shorter list, exactly ten of a longer one, and none when there is no subject list |
| NoteExport.Classify | api/add-book.js:42-87 | the genres are the deduplicated genres of the examined subjects (or `Fiction`), and Part of Series is `Yes` exactly when an examined subject or the title marks a series, `No` otherwise |
| NoteExport.BiographyNeverEmitted | api/add-book.js:51-62 | `Biography` is never among the genres, before or after deduplication |
| NoteExport.ScienceFictionOnlyFromSciFi | api/add-book.js:51-58 | a subject yields `Science Fiction` only when it contains `sci-fi` and not `fiction` |
| NoteExport.OneGenrePerSubject | api/add-book.js:47-69 | at most one genre per subject; a genre appears exactly when some subject's first matching branch names it |
| NoteExport.FinalGenresShape | api/add-book.js:84-87 | the final genres are never empty and have no duplicates; they are `Fiction` alone when nothing matched, and otherwise exactly the matched genres, each taken at its first match and listed in the order first matched |
| NoteExport.SeriesOnlyFromExamined | api/add-book.js:46-81 | subjects after the tenth play no part in the series flag |
| NoteExport.BuildProperties | api/add-book.js:89-166 | title, author line, `To Read`, genres, date and series flag are always set. Pages, Link to Buy, Summary and Cover are each present exactly when pages, key, first publication year and cover id, respectively, are truthy, with the values built from those fields |
| NoteExport.DateAddedIsDatePart | api/add-book.js:116-120 | the date stamp is the calendar-date part of the ISO timestamp |
| NoteExport.AddBook | api/add-book.js:14-187 | 405 for a non-POST and 400 without a book, before any page is created; otherwise the page-creation call gets exactly the classified properties; its id or its error message is reported |
| VideoExtract.LinkPatternIsContains | api/tiktok.js:23-26 | the unanchored, case-insensitive link pattern matches exactly when the lower-cased link contains `tiktok.com` |
| VideoExtract.ContentCases | api/tiktok.js:59 | the scanned text is title and description separated by a space, or the one present, or empty |
| VideoExtract.ExtractCandidates | api/tiktok.js:53-79 | the loop with its seen-set produces exactly the first admitted candidate of each lower-cased title, in match order |
| VideoExtract.AdmitPlausible | api/tiktok.js:64-75 | a match is admitted exactly when its title capture, trimmed, is strictly between 3 and 100 UTF-16 code units long. The admitted title is that trimmed capture. The confidence is `high` exactly when a non-empty author was captured, and an author kept is the trimmed capture; otherwise the confidence is `medium` with no author |
| VideoExtract.ExtractedShape | api/tiktok.js:54-77 | extracted candidates are plausible and never share a lower-cased title; every admitted title is represented |
| VideoExtract.ExtractedFirstSeen | api/tiktok.js:54-71 | each extracted candidate comes from a match before which no match admitted the same lower-cased title |
| VideoExtract.FoundTermsMembers | api/tiktok.js:83-86 | a common term is suggested exactly when it occurs in the lower-cased text |
| VideoExtract.SuggestShape | api/tiktok.js:82-92 | at most three suggestions, each a common term found in the text, the first found in list order; all are suggested when at most three are found |
| VideoExtract.ExtractBooks | api/tiktok.js:12-109 | the handler's responses and their guards: 405 for a non-POST; 400 without a link or for a link that is not a `tiktok.com` one; the fixed fallback when the page cannot be fetched; suggestions when nothing is extracted; otherwise the first five candidates with a message counting all of them |
| JsArray.StableSortRanked | api/multi-search.js:93-103 | the sort's result is ordered by the comparator |
| JsArray.StableSortPermutes | api/multi-search.js:93-103 | the sort's result is a permutation of its input |
| JsArray.StableSortStable | api/multi-search.js:93-103 | entries the comparator ties keep their relative order |
| JsArray.StableSortDistinct | api/multi-search.js:93-103 | sorting keeps merge keys distinct |
| JsArray.DedupDistinct | api/multi-search.js:65-68 | no two entries of the deduplicated list share a key |
| JsArray.DedupKeys | api/multi-search.js:65-79 | deduplication keeps every key and adds none |
| JsArray.DedupFirstSeen | api/multi-search.js:63-79 | each kept entry is the first with its key |
| JsArray.DedupOrder | api/add-book.js:84 | of two kept elements, the earlier one is met first in the input, each at the first element with its key |
| JsArray.DedupPrefersEarlier | api/multi-search.js:53-79 | a kept entry whose key occurs among the earlier results comes from them |
| JsArray.CollectMembers | api/add-book.js:47-69 | a loop that pushes at most one value per element yields at most one per element, and exactly the values some element yields |
| JsArray.KeySetHasKey | api/tiktok.js:54-70 | the seen-set holds exactly the keys of the candidates kept so far |
| JsText.JoinSplit | api/multi-search.js:24 | splitting on a separator and joining with it gives back the text |
| JsText.SplitPair | api/add-book.js:118 | text with one separator splits into the parts before and after it |
| JsText.ParseIntOfNatToString | api/google-books.js:23-24 | `parseInt` reads a decimal number back exactly |
| JsText.ReplaceFirstAtStart | api/google-books.js:56 | replacing a leading pattern swaps just that prefix |
| JsText.EncodeUriComponentSafe | api/multi-search.js:73-77 | `encodeURIComponent` output has only unreserved characters and `%` escapes |
| JsText.DecodeEncode | api/multi-search.js:73-77 | `decodeURIComponent` gives back exactly the text `encodeURIComponent` encoded, every character's UTF-8 escapes included |
| JsText.Trim | api/tiktok.js:64-65 | trimmed text occurs in the input and has no white space at either end |
| JsText.TrimSlice | api/tiktok.js:64-65 | trimmed text is one slice of the input, and everything before and after that slice is white space |
| JsText.TrimTrimmed | api/tiktok.js:64 | trimming trimmed text changes nothing |
| JsText.Utf16Length | api/tiktok.js:67 | a string's length in UTF-16 code units lies between its character count and twice it |
| JsText.ContainsTransitive | api/add-book.js:51-57 | text containing a phrase contains everything the phrase contains |

## Left out

- HTTP plumbing is not modelled: CORS headers, `res.status().json()` and the exact JSON layout. Responses are datatypes carrying the status code, the error text and the body fields. An `OPTIONS` request is the `Preflight` response.
- These external effects are parameters:
  - the outbound `fetch` calls;
  - the Notion client and its page creation;
  - `process.env`;
  - `new Date().toISOString()`;
  - the regular-expression engine (the TikTok pattern scan and the page title and description extraction).

  The query's `origin` header and the outbound URL text of the multi-source search are not modelled. A request is identified by its source, query, limit and offset.
- `Promise.allSettled` and the concurrent fan-out are not modelled. The settled results are a sequence in push order. Every request carries its own `.catch`, so a result is never rejected, and a failure's error text is always `Search failed`.
- Aggregator.MultiSearch: the 500 `Multi-source search failed` path is not modelled. Every field has one type in the model, so none of the cases in which the guarded block throws can arise. On the request side, a query parameter given twice (`?sources=google&sources=openlibrary`) arrives as an array, and `sources.split(',')` throws. On the answer side, the throwing cases are a `null` JSON body (reading `num_found`), a `null` doc (reading `title`), and a title or first author that is not a string (`toLowerCase`).
- Aggregator.MultiSearch: the status object it promises keys a failed result by that result's own source. The code keys it by the requested name at the result's position (see "## Findings"). The two agree whenever the requested names line up with the issued requests, as `Aggregator.HandlerKeyingAgreesWhenAligned` proves, which includes the default `sources=all`. The code's keying itself is `Aggregator.StatusTableAsWritten`.
- Aggregator.Combine: builds the corrected status object (`Aggregator.StatusTable`), not the code's, for the reason given for `Aggregator.MultiSearch`.
- Aggregator.Absorb: writes a failure under the result's own source, not the code's `searchSources[index] || 'unknown'`, for the reason given for `Aggregator.MultiSearch`.
- Aggregator.Put: a status key is appended in insertion order. JavaScript's `Object.keys`, and with it the JSON output, lists integer-like keys before the others. Take `sources=openlibrary,3,google` with Google Books failing: the failure is keyed by the requested name at position 1, `3`, so the keys are `openlibrary` then `3`, and the output lists `3` first. Assigning to `__proto__` creates no own key at all. Neither case is modelled, so for such requested names the key order, and for `__proto__` the key itself, differ from the model's.
- Records carry only the fields the endpoints read. A book's other fields pass through untouched and are not represented. A `docs` value that is not an array is modelled as absent.
- Floating-point `average_rating` is modelled as an integer, so popularity is an integer.
- `toLowerCase` is modelled on ASCII letters only. The case-insensitive link pattern compares ASCII letters only, so for it the model is exact.
- `Array.prototype.sort` works in place. It is modelled as the pure stable insertion sort it must agree with (`JsArray.StableSort`), and the handler reassigns the list.
- The three search links are functions of the stored record (`Aggregator.Entry.AmazonSearch` and its siblings) rather than stored fields.
- `encodeURIComponent` of an unpaired surrogate throws in JavaScript. The model has no surrogate code points, so this case is not modelled.
- GoogleBooks.PublishYear takes the first four characters rather than the first four UTF-16 code units. These differ only when a date starts with a character outside the Basic Multilingual Plane.
- In the catalog export, the first ISBN is computed but never used, so it is not modelled. A `book` field that is present but not an object is outside the model.
- Dynamic typing of fields is not modelled: a non-string title, say, or an array-valued `sources` (the parameter repeated). Each field has one type, and the cover id is a number or a string.
- In the video extraction, the five patterns' matches are one sequence, pattern by pattern, each pattern's matches in order. This is what the nested `forEach`/`while` visits.
- api/gemini-chat.js and api/search.js are not part of this model. The first forwards to an external generative API and the second passes the catalog's answer through.

## Findings

| source | as written | input that shows it | evidently intended | confidence | as-written member | corrected member |
|---|---|---|---|---|---|---|
| api/multi-search.js:83 | a failed result is recorded under `searchSources[index]`, the requested name at the result's position in the issued-request list | `sources=google,openlibrary`, catalog answers, Google Books fails: the failure is recorded as `openlibrary: error`, the catalog's success is overwritten and `google` never appears | record the failure under the failing request's own source | high (not executed) | Aggregator.StatusAsWrittenMislabels | Aggregator.StatusTableCorrect |
