# shelfie — a verified model of the reading tracker's core

shelfie is a reading tracker. Readers search a public book catalogue, keep a history of rated
books, a favourites list and a reading list, state liked and disliked tropes, categories,
authors and languages, follow each other, share books, get notifications, and ask a
generative model for recommendations. This project models, in Dafny, the parts of the
TypeScript back end and front end that carry logic:

- **the book-metadata gateway** (`GoogleBooks`): the in-memory cache with its one-hour time to
  live, the bounded retry policy with exponential back-off for searches, the book-id validator
  with its fallback record, and the two normalisers from catalogue records to the internal
  book shape and to search listings. The gateway is a class `Gateway` whose `cache` map the
  methods update. Wall-clock time is a parameter `now`. The upstream catalogue is an
  `Outcome` (`Ok(payload)` or `Err(isAxios, status?, code?)`), one per attempt.
- **the store** (`Store`): the relational database as a class `Db` with maps and sequences:
  users keyed by uid with their relation sets, books keyed by catalogue id, ratings (at most
  one per user and book), notifications, tropes, categories, authors, languages and the
  recommendation settings. `Db.Valid()` holds the key and reference constraints the schema
  enforces.
- **the back-end controllers**, one module each (`BookController`, `RecommendationController`,
  `PreferenceController`, `UserController`, `NotificationController`, `TropeController`) and
  the trope seeder (`TropeService`). Each handler is a method on the store whose result is a
  `Response` (`Ok(status, value)` or `Error(status, message)`). The authenticated caller is
  an `Option<AuthUser>` parameter. Most handlers are proved equal to a specification
  function, and lemmas about that function state what the handler promises.
- **the front-end state machines**, one class per component: the preference form
  (`PreferenceForm`), the book page (`BookDetail`), the login form (`LoginForm`) and the three
  notification views (`NotificationsPage`, `NotificationBadge`, `NotificationsButton`), whose
  shared list operations are in `NotificationViews`.

The HTTP-like `Response` is declared in `Store`. Shared modules: `Wrappers` (`Option`), `Seqs` (first-occurrence
de-duplication, filtering, a stable insertion sort, `Take`) and `Text` (the ASCII character
classes the source's regular expressions use, lower-casing, trimming, substring search,
joining, integer printing).

Three behaviours of the code that the model keeps as they are:

- The ISBN is the first identifier whose type is ISBN_13 or ISBN_10, in list order
  (backend/src/services/googleBooksService.ts:140-146). ISBN_13 is not preferred.
- `getBookById` consults the cache (backend/src/services/googleBooksService.ts:94-96) before it
  validates the id (lines 99-102).
- The preference form falls back to `['pt']` only when the initial preferences have no
  `languages` field at all (frontend/src/components/PreferenceForm.tsx:117-123). An empty array
  stays empty.

## Model

| member | source | states |
|---|---|---|
| GoogleBooks.StrOr | backend/src/services/googleBooksService.ts:161-171 | `o \|\| d`: a present non-empty string is kept, anything else gives the default |
| GoogleBooks.StrOrNull | backend/src/services/googleBooksService.ts:166 | `o \|\| null`: a falsy string becomes null |
| GoogleBooks.FirstOr | backend/src/services/googleBooksService.ts:163 | the first list entry when it is a non-empty string, else the default |
| GoogleBooks.FallbackBook | backend/src/services/googleBooksService.ts:126-135 | the fallback record carries the requested id and has no image links and no identifiers |
| GoogleBooks.FindIsbn | backend/src/services/googleBooksService.ts:140-146 | the position of the first identifier of type ISBN_13 or ISBN_10; none before it has either type |
| GoogleBooks.IsbnIsFirstMatch | backend/src/services/googleBooksService.ts:140-146 | the ISBN is the identifier of the first ISBN_13-or-ISBN_10 entry, in list order, with no ISBN_13 preference |
| GoogleBooks.IsbnNoneWithoutMatch | backend/src/services/googleBooksService.ts:140-146 | without an ISBN entry the ISBN is null |
| GoogleBooks.ToHttps | backend/src/services/googleBooksService.ts:156-158 | `http:` is replaced by `https:` and the rest of the URL is kept |
| GoogleBooks.CoverUrl | backend/src/services/googleBooksService.ts:149-159 | the cover is never empty and never starts with `http:`; no image links means no cover |
| GoogleBooks.CoverPrefersThumbnail | backend/src/services/googleBooksService.ts:151-152 | a thumbnail is chosen over the small thumbnail |
| GoogleBooks.CoverFallsBackToSmall | backend/src/services/googleBooksService.ts:153-154 | without a thumbnail the small thumbnail is used |
| GoogleBooks.CoverRewritesHttp | backend/src/services/googleBooksService.ts:156-158 | an `http:` thumbnail is served as `https:` |
| GoogleBooks.FormatBookData | backend/src/services/googleBooksService.ts:138-172 | the result keeps the catalogue id, title, author and description are never empty, the cover is never `http:`, and a page count of 0 is null |
| GoogleBooks.FormatBookDataDefaults | backend/src/services/googleBooksService.ts:161-171 | every field comes from the record when it is truthy and from its default otherwise: title or 'Unknown Title'; a non-empty first author or 'Unknown Author'; description or 'No description available.'; date or null; a non-zero page count or null; categories or `[]`; no identifiers means no ISBN and no image links no cover |
| GoogleBooks.FormatFallback | backend/src/services/googleBooksService.ts:126-135 | formatting the fallback record gives its title, 'Unknown Author', its apology and nothing else |
| GoogleBooks.ListingCover | backend/src/services/googleBooksService.ts:186 | the listing cover is the thumbnail when there is one, with no `https` rewrite |
| GoogleBooks.ListingEntries | backend/src/services/googleBooksService.ts:181-189 | the listing never has more entries than the input |
| GoogleBooks.FormatSearchResults | backend/src/services/googleBooksService.ts:175-198 | missing or empty items give `{[], 0}`; otherwise `totalItems` is the input's, not the listing's length |
| GoogleBooks.WithInfo | backend/src/services/googleBooksService.ts:182 | every kept item has volume information |
| GoogleBooks.ListingKeepsInfoItems | backend/src/services/googleBooksService.ts:181-189 | one entry per item with volume information, in order, with 'Título desconhecido' and 'Autor desconhecido' as defaults |
| GoogleBooks.WithInfoCount | backend/src/services/googleBooksService.ts:182 | items without volume information are dropped; if all have it, all are kept |
| GoogleBooks.SearchKey | backend/src/services/googleBooksService.ts:51 | a search key never looks like a `book:` key |
| GoogleBooks.BookKeyIsBookKey | backend/src/services/googleBooksService.ts:91 | `book:id` is a book key that gives back the id |
| GoogleBooks.SplitAtLastColon | backend/src/services/googleBooksService.ts:51 | a string ending in `:` plus a colon-free part splits only one way |
| GoogleBooks.SearchKeyInjective | backend/src/services/googleBooksService.ts:51 | two searches share a cache key only when query, start index and page size are equal |
| GoogleBooks.Pow2 | backend/src/services/googleBooksService.ts:78 | a power of two is at least 1 |
| GoogleBooks.Backoff | backend/src/services/googleBooksService.ts:78 | the wait `1000 * 2^(3 - retries)` is at least 1000 ms |
| GoogleBooks.SearchKeysHoldSearches | backend/src/services/googleBooksService.ts:54-56 | under a search key the cache answers iff an entry exists and `now - timestamp < 3600000` |
| GoogleBooks.AttemptSchedule | backend/src/services/googleBooksService.ts:77-81 | at most `retries + 1` requests; the waits are 1000·2^(3−retries), then doubled; a retry happens only after a retryable failure (503, ECONNABORTED or no response) |
| GoogleBooks.AttemptResult | backend/src/services/googleBooksService.ts:58-84 | the last attempt decides: success gives its data; failure gives `{items: [], totalItems: 0}`, either after the last retry or on a non-retryable error |
| GoogleBooks.DefaultBackoffSchedule | backend/src/services/googleBooksService.ts:78 | with the default three retries the waits are 1000, 2000 and 4000 ms |
| GoogleBooks.BackoffDoubles | backend/src/services/googleBooksService.ts:78 | each wait is twice the one before |
| GoogleBooks.StaleStaysStale | backend/src/services/googleBooksService.ts:54 | an entry that is stale now stays stale later |
| GoogleBooks.SearchCaching | backend/src/services/googleBooksService.ts:51-84 | no request iff a fresh entry exists; only a success writes the cache, with a fresh timestamp; a failure leaves the cache as it was; other keys are untouched |
| GoogleBooks.SearchSpecWellFormed | backend/src/services/googleBooksService.ts:70-73 | searching keeps every cache entry of the right kind |
| GoogleBooks.InvalidIdGetsFallback | backend/src/services/googleBooksService.ts:99-102 | an invalid id (not 8–25 characters of `[A-Za-z0-9_-]`) gets the fallback, with no request and no cache write; the cache never holds an invalid id |
| GoogleBooks.BookSpecCaching | backend/src/services/googleBooksService.ts:89-123 | a request happens iff the id is valid and not freshly cached; only a success writes `book:id`; a failure gives the fallback |
| GoogleBooks.BookCacheHit | backend/src/services/googleBooksService.ts:94-96 | a fresh cached record is served before the id is validated |
| GoogleBooks.Gateway.SearchBooks | backend/src/services/googleBooksService.ts:44-86 | the recursive retry's result, attempt count, waits and new cache are those of the search specification |
| GoogleBooks.Gateway.GetBookById | backend/src/services/googleBooksService.ts:89-123 | the returned record, the request flag and the new cache are those of the lookup specification |
| Store.NewUser | backend/src/controllers/userController.ts:33-42 | a created user has the given fields and every relation empty |
| Store.Db.CreateUser | backend/src/controllers/userController.ts:33-42 | creation succeeds iff email and username are free (unique columns) and then adds exactly that user |
| Store.Db.EnsureUser | backend/src/controllers/tropeController.ts:25-38 | a missing caller record is created with the token's email and username (or empty ones); it fails only on a taken email or username |
| Store.Db.AddNotification | backend/src/controllers/notificationController.ts:131-139 | a notification is appended to the store |
| Store.Ensured | backend/src/controllers/tropeController.ts:25-38 | the user table after ensuring the caller: others unchanged, the caller present |
| BookController.PageParams | backend/src/controllers/bookController.ts:17-21 | `startIndex` defaults to 0 and `maxResults` to 10 |
| BookController.SearchGoogleBooks | backend/src/controllers/bookController.ts:9-34 | a missing query gives 400 with no cache change; otherwise the gateway search, and a result without items becomes `{[], 0}` |
| BookController.NoItemsIsEmptyListing | backend/src/controllers/bookController.ts:23-25 | a result with no or empty items is the empty listing |
| BookController.BooksAfterResolve | backend/src/controllers/bookController.ts:136-148 | finding or creating a book only adds a book; stored books are unchanged |
| BookController.StoredBookIsUsed | backend/src/controllers/bookController.ts:136-139 | a stored book is used as it is, with no request |
| BookController.InvalidIdStoresFallback | backend/src/controllers/bookController.ts:141-148 | an unknown invalid id stores the formatted fallback record |
| BookController.CacheAfterResolve | backend/src/controllers/bookController.ts:136-148 | a stored book leaves the catalogue cache as it was; otherwise the cache changes only by the fetched record of a valid id after a successful request |
| BookController.EnsureBook | backend/src/controllers/bookController.ts:136-148 | finds the book or fetches, formats and creates it; key, book table and catalogue cache are those of the specification functions |
| BookController.GetBookDetails | backend/src/controllers/bookController.ts:37-123 | a stored book is returned with no request; otherwise it is formatted and stored, and a duplicate key (P2002) re-reads instead of failing |
| BookController.FindRating | backend/src/controllers/bookController.ts:178-185 | the first rating by the user of the book, or none |
| BookController.UpsertRatingFacts | backend/src/controllers/bookController.ts:178-199 | the upsert keeps one rating per (user, book); afterwards that rating has the given score and review; other ratings are unchanged |
| BookController.DeleteRatings | backend/src/controllers/bookController.ts:228-233 | every rating by the user of the book is deleted, and only those |
| BookController.AddBookToHistory | backend/src/controllers/bookController.ts:126-205 | 401 with no change; otherwise the book is found or created; success iff the book resolves and the caller was stored before or can be created (`Store.Ensured` on the users before the call: no email or username clash); then the book joins the caller's books and the rating is updated or created; failure is 500 with the users and ratings unchanged; the catalogue cache is the one the book step leaves |
| BookController.ConnectBook | backend/src/controllers/bookController.ts:151-175 | succeeds iff the caller was stored before or can be created without a unique-key clash (`Store.Ensured` on the users before the call); then the caller, created if missing, gets the book in their books; a failure changes no user |
| BookController.SaveRating | backend/src/controllers/bookController.ts:178-199 | the ratings become the upsert of the specification |
| BookController.RemoveBookFromHistory | backend/src/controllers/bookController.ts:208-249 | 401 or 404 with no change; otherwise the user's ratings of the book are deleted and the book leaves their books, or 500 with only the ratings deleted when the caller has no record; the books table and the rest never change |
| BookController.FilterKeepsOneRating | backend/src/controllers/bookController.ts:228-233 | deleting ratings keeps at most one per (user, book) |
| BookController.Toggle | backend/src/controllers/bookController.ts:285-307 | the book is in the new list iff it was not in the old one; no other entry changes |
| BookController.ToggleTwice | backend/src/controllers/bookController.ts:285-307 | two toggles restore the list |
| BookController.WithList | backend/src/controllers/bookController.ts:290-306 | sets exactly the chosen list |
| BookController.ToggleList | backend/src/controllers/bookController.ts:252-372 | favourites and reading list: 401 with no change; otherwise the book is found or created and toggled in that list only, with a message saying which way; a missing caller is 500; the catalogue cache is the one the book step leaves |
| BookController.CategoriesFailOn | backend/src/controllers/bookController.ts:509-514 | one result without volume information makes the categories request fail |
| BookController.AppendNew | backend/src/controllers/bookController.ts:508-515 | adding to the `Set` keeps each category once, in first-occurrence order |
| BookController.ExtendDistinct | backend/src/controllers/bookController.ts:511-513 | one `Set.add`: a new name is appended, a known one ignored |
| BookController.CollectCategories | backend/src/controllers/bookController.ts:508-515 | the distinct categories of the results, or a failure |
| BookController.GetCommonCategories | backend/src/controllers/bookController.ts:495-531 | with a query: each category of the results once, in first-occurrence order; without: the fixed 15-name list |
| BookController.AuthorsFailOn | backend/src/controllers/bookController.ts:549-557 | one result without volume information makes the authors request fail |
| BookController.DashSpaces | backend/src/controllers/bookController.ts:562 | `replace(/\s+/g, '-')` leaves no white space and never lengthens the name |
| BookController.DashSpacesRun | backend/src/controllers/bookController.ts:562 | a whole white-space run after a word becomes a single `-`, and the rest is dashed in turn |
| BookController.Slug | backend/src/controllers/bookController.ts:562 | the author id has no white space and no capital letter |
| BookController.SlugOfSingleWord | backend/src/controllers/bookController.ts:562 | a one-word name's id is its lower-cased form |
| BookController.DashSpacesIdle | backend/src/controllers/bookController.ts:562 | a name without white space is not changed by the dashing |
| BookController.AuthorEntries | backend/src/controllers/bookController.ts:562 | one `{id: slug, name}` entry per ranked author |
| BookController.RankAuthorsFacts | backend/src/controllers/bookController.ts:560-562 | each author once, by count descending, ties in first-seen order |
| BookController.Tally | backend/src/controllers/bookController.ts:549-557 | the counting loop gives the first-seen order and each author's number of occurrences |
| BookController.CountStep | backend/src/controllers/bookController.ts:553-555 | one increment of the counts map counts one more occurrence |
| BookController.CountAuthors | backend/src/controllers/bookController.ts:549-557 | the authors in first-seen order and their counts, or a failure |
| BookController.GetCommonAuthors | backend/src/controllers/bookController.ts:534-568 | a missing query gives 400; otherwise the ranked authors with their slug ids, or 500 when a result has no volume information |
| RecommendationController.OrdersResolve | backend/src/controllers/recommendationController.ts:23-33 | the ids a stored user's relations hold point at stored tropes and languages |
| RecommendationController.GatherLists | backend/src/controllers/recommendationController.ts:23-33 | reads the names of the user's liked/disliked tropes, categories, authors and languages |
| RecommendationController.RatingsBy | backend/src/controllers/recommendationController.ts:50-55 | exactly the caller's ratings, in store order (an instance of `Seqs.Positions`) |
| RecommendationController.SortedRatings | backend/src/controllers/recommendationController.ts:50-55 | newest first, each of the caller's ratings once |
| RecommendationController.RecentRatingsContents | backend/src/controllers/recommendationController.ts:50-55 | at most 20 of the caller's ratings, each once |
| RecommendationController.RecentRatingsAll | backend/src/controllers/recommendationController.ts:50-55 | a caller with at most 20 ratings has them all listed |
| RecommendationController.RecentRatingsOrder | backend/src/controllers/recommendationController.ts:50-55 | newest first, and every rating left out is no newer than every rating listed |
| RecommendationController.RecentRatingsResolve | backend/src/controllers/recommendationController.ts:50-55 | every listed rating's book is stored |
| RecommendationController.LineFacts | backend/src/controllers/recommendationController.ts:92-116 | a like/dislike line is present iff its list is non-empty; it starts with its caption and ends with a newline |
| RecommendationController.NoPreferenceLines | backend/src/controllers/recommendationController.ts:92-116 | without likes or dislikes there is no preference line |
| RecommendationController.HistoryLinesAppend | backend/src/controllers/recommendationController.ts:119-124 | the history lines of two parts are the lines of each, in order |
| RecommendationController.HistoryLinesSnoc | backend/src/controllers/recommendationController.ts:119-124 | one more rating adds its line at the end |
| RecommendationController.HistoryEntryAt | backend/src/controllers/recommendationController.ts:119-124 | the k-th rating's `- "title" by author - Rated r/5` line comes right after those before it |
| RecommendationController.AutoPromptFrame | backend/src/controllers/recommendationController.ts:80-89 | the prompt starts with the fixed request followed by the joined language names, or the fixed default language line |
| RecommendationController.AutoPromptCloses | backend/src/controllers/recommendationController.ts:127 | the prompt ends with the JSON instructions |
| RecommendationController.AutoHeadOpens | backend/src/controllers/recommendationController.ts:80-89 | the head is the request, then the language line |
| RecommendationController.LanguageLineOpens | backend/src/controllers/recommendationController.ts:83-89 | the language line starts with the joined names, or is the default |
| RecommendationController.AppendHistory | backend/src/controllers/recommendationController.ts:119-124 | the `forEach` of `prompt +=` appends exactly the history lines |
| RecommendationController.BuildAutoPrompt | backend/src/controllers/recommendationController.ts:80-127 | the appended prompt is the prompt of the specification |
| RecommendationController.FirstFrom | backend/src/controllers/recommendationController.ts:141-144 | the first position at or after `from` holding the character |
| RecommendationController.JsonSpan | backend/src/controllers/recommendationController.ts:141-144 | a span exists iff some '[' comes before some ']'; it runs from the first '[' to the first ']' after it |
| RecommendationController.SpaceRun | backend/src/controllers/recommendationController.ts:148 | the length of the leading `\s*` run |
| RecommendationController.CommaBeforeClose | backend/src/controllers/recommendationController.ts:148 | a match of `,\s*]` at the start |
| RecommendationController.NewlinesToSpaces | backend/src/controllers/recommendationController.ts:147 | every newline becomes a space, nothing else changes |
| RecommendationController.ClosesAppend | backend/src/controllers/recommendationController.ts:148 | counting ']' adds over concatenation |
| RecommendationController.DropCommaShrinks | backend/src/controllers/recommendationController.ts:148 | the comma clean-up never lengthens the text or adds a character |
| RecommendationController.DropCommaKeepsCloses | backend/src/controllers/recommendationController.ts:148 | the comma clean-up keeps every ']' |
| RecommendationController.DropCommaIdle | backend/src/controllers/recommendationController.ts:148 | text with no trailing comma is left as it is |
| RecommendationController.NoCloseInRun | backend/src/controllers/recommendationController.ts:148 | the deleted comma and white space hold no ']' |
| RecommendationController.FilterNone | backend/src/controllers/recommendationController.ts:148 | a text without ']' counts none |
| RecommendationController.CleanupFacts | backend/src/controllers/recommendationController.ts:146-150 | the cleaned span has no newline, is no longer than the span and keeps every ']' |
| RecommendationController.ParseWholeFirst | backend/src/controllers/recommendationController.ts:134-161 | the trimmed whole text is parsed first; if it is not JSON, the cleaned span is parsed; an array is 200, a non-array or unparsable span is 500 with its own message |
| RecommendationController.ParseNoSpan | backend/src/controllers/recommendationController.ts:141-145 | "no span" (500) happens iff the whole text is not JSON and no span exists |
| RecommendationController.InterpretNoSpan | backend/src/controllers/recommendationController.ts:141-145 | the same decision, on the parsed pieces |
| RecommendationController.EnrichFacts | backend/src/controllers/recommendationController.ts:164-185 | a recommendation keeps title and author; with search items it gains the first hit's id, cover and description; without items it is unchanged |
| RecommendationController.EnrichFailedSearch | backend/src/controllers/recommendationController.ts:180-183 | a failed search leaves the recommendation unchanged |
| RecommendationController.EnrichAll | backend/src/controllers/recommendationController.ts:164-185 | one enriched output per recommendation, in order, each from its own search |
| RecommendationController.AutoPromptFor | backend/src/controllers/recommendationController.ts:23-127 | the prompt built for a stored user is the specification prompt for their preferences and recent ratings |
| RecommendationController.Recommend | backend/src/controllers/recommendationController.ts:130-190 | a generation failure is 500 and a parse failure is returned, both with the cache unchanged; otherwise the k-th recommendation is enriched with the answer of its own catalogue search (`intitle:"<title>" inauthor:"<author>"`, start 0, one result), each search running on the cache the previous one left, and the final cache is the last one's |
| RecommendationController.GetAutomatedRecommendations | backend/src/controllers/recommendationController.ts:15-194 | 401, 404; `[]` when settings are absent or off, or with no ratings and no like/dislike (languages do not count); otherwise the prompt built from the caller's preferences and 20 newest ratings is sent, and generation, parsing and enrichment follow as in `Recommend`, each recommendation enriched from its own search |
| RecommendationController.NumberedLinesAppend | backend/src/controllers/recommendationController.ts:293-298 | numbering continues across concatenation |
| RecommendationController.NumberedLinesSnoc | backend/src/controllers/recommendationController.ts:293-298 | one more book adds its numbered line at the end |
| RecommendationController.NumberedEntryAt | backend/src/controllers/recommendationController.ts:293-298 | the k-th book's line carries number first + k |
| RecommendationController.ChatPromptQuotesMessage | backend/src/controllers/recommendationController.ts:301-319 | the chat prompt opens with the fixed request, quotes the message, and closes with the fixed instructions |
| RecommendationController.AppendNumbered | backend/src/controllers/recommendationController.ts:293-298 | the `forEach` appends the reading list numbered from 1 |
| RecommendationController.BuildChatPreferences | backend/src/controllers/recommendationController.ts:244-287 | the appended preferences text is that of the specification |
| RecommendationController.ReadingListFor | backend/src/controllers/recommendationController.ts:290-298 | the numbered list of every book of the reading list, each once |
| RecommendationController.ChatPromptFor | backend/src/controllers/recommendationController.ts:229-319 | the chat prompt is the specification prompt for the message, preferences and reading list |
| RecommendationController.GetChatRecommendation | backend/src/controllers/recommendationController.ts:196-337 | a missing message is 400, then 401, 404; a model failure still answers 200 with the fixed apology |
| RecommendationController.ReadSetting | backend/src/controllers/recommendationController.ts:339-366 | 401; an absent setting is created as enabled; a present one is returned as it is |
| RecommendationController.SettingsFacts | backend/src/controllers/recommendationController.ts:351-389 | a non-boolean update changes nothing; a boolean one is answered and later read back as written, other users' settings unchanged; reading twice equals reading once |
| RecommendationController.GetRecommendationSettings | backend/src/controllers/recommendationController.ts:339-366 | answer and settings are those of the read specification |
| RecommendationController.UpdateRecommendationSettings | backend/src/controllers/recommendationController.ts:368-400 | answer and settings are those of the write specification |
| PreferenceController.NatIds | backend/src/controllers/preferenceController.ts:78-90 | the trope id set is exactly the listed ids |
| PreferenceController.TropePrefsFacts | backend/src/controllers/preferenceController.ts:52-96 | 401 with no change; missing lists are `[]`; the caller is created if missing; success iff every id names a trope; then liked and disliked are exactly the lists; other users unchanged |
| PreferenceController.KnownParts | backend/src/controllers/preferenceController.ts:78-90 | both halves of a known id list are known |
| PreferenceController.UpdateTropePreferences | backend/src/controllers/preferenceController.ts:52-96 | answer and users are those of the trope specification |
| PreferenceController.CheckTropeIds | backend/src/controllers/preferenceController.ts:78-90 | the loop decides whether every id names a stored trope |
| PreferenceController.SetTropePrefs | backend/src/controllers/preferenceController.ts:78-90 | the caller's liked and disliked trope sets are replaced by the listed ids |
| PreferenceController.NamePrefsFacts | backend/src/controllers/preferenceController.ts:117-141 | success iff the caller exists; the chosen liked/disliked sets become exactly the lists; the other kind and other users are unchanged |
| PreferenceController.UpsertCategory | backend/src/controllers/preferenceController.ts:109-115 | the category exists afterwards |
| PreferenceController.UpsertAuthor | backend/src/controllers/preferenceController.ts:160-166 | the author exists afterwards |
| PreferenceController.UpdateCategoryPreferences | backend/src/controllers/preferenceController.ts:99-147 | 401; every listed name exists as a category; the caller's sets are replaced by exactly those |
| PreferenceController.UpdateAuthorPreferences | backend/src/controllers/preferenceController.ts:150-198 | the same upsert-then-replace on authors |
| PreferenceController.LanguageName | backend/src/controllers/preferenceController.ts:217 | 'pt' is 'Português', 'en' is 'Inglês', any other code is its own name |
| PreferenceController.WithLanguages | backend/src/controllers/preferenceController.ts:212-221 | every code gets a language; existing rows keep their name (`update: {}`); new ones get the mapped name |
| PreferenceController.UpdateLanguagePreferences | backend/src/controllers/preferenceController.ts:201-244 | 401; languages upserted; a missing caller is 500; otherwise the caller's languages are exactly the codes |
| PreferenceController.UpsertLanguages | backend/src/controllers/preferenceController.ts:212-221 | the loop upserts every code |
| PreferenceController.UpsertLanguage | backend/src/controllers/preferenceController.ts:213-220 | one upsert: created with its name when absent, otherwise untouched |
| PreferenceController.SearchAuthors | backend/src/controllers/preferenceController.ts:247-272 | missing query is 400; otherwise at most 10 distinct authors containing the query ignoring case, by name ascending, and none skipped before the tenth |
| PreferenceController.TakeSortedFacts | backend/src/controllers/preferenceController.ts:255-266 | taking 10 from the sorted matches keeps the smallest names |
| UserController.RegisterFacts | backend/src/controllers/userController.ts:7-46 | in the source's order: a missing uid, a taken email, a taken username each give 400 with its own message; a uid already registered gives 500; failures change nothing; success iff none of these, then 201 and exactly the new user is added |
| UserController.RegisterUser | backend/src/controllers/userController.ts:7-46 | answer and users are those of the registration specification |
| UserController.UsernameAvailability | backend/src/controllers/userController.ts:49-65 | a missing name is 400; otherwise available iff no user has it |
| UserController.UsernameProblem | backend/src/controllers/userController.ts:373-379 | a name is accepted iff it has at least 3 characters, all in `[a-zA-Z0-9_]` |
| UserController.UpdateUsernameFacts | backend/src/controllers/userController.ts:360-415 | short names, bad characters and names held by someone else are 400 with no change; keeping one's own name is allowed; only the caller changes |
| UserController.UpdateUsername | backend/src/controllers/userController.ts:360-415 | answer and users are those of the specification |
| UserController.FollowFacts | backend/src/controllers/userController.ts:109-173 | missing target is 404, already following is 400, both with no change; otherwise the target joins the following set and one FOLLOW notification to the target is added |
| UserController.FollowUser | backend/src/controllers/userController.ts:109-173 | answer, users and notifications are those of the specification |
| UserController.UnfollowFacts | backend/src/controllers/userController.ts:176-202 | a missing target is 400; otherwise only that target leaves the caller's following set |
| UserController.FollowThenUnfollow | backend/src/controllers/userController.ts:109-202 | following then unfollowing a user restores the users table |
| UserController.UnfollowUser | backend/src/controllers/userController.ts:176-202 | answer and users are those of the specification |
| UserController.ProfileFacts | backend/src/controllers/userController.ts:261-319 | 401; a missing profile is 404; the email is shown only to its owner; `isFollowing` only for another user the caller follows |
| UserController.SearchUsers | backend/src/controllers/userController.ts:322-357 | 401, missing query 400; at most 10 distinct users whose name contains the query ignoring case, never the caller, and all of them when fewer than 10 |
| NotificationController.OwnedBy | backend/src/controllers/notificationController.ts:14-15 | exactly the positions of the caller's notifications, in store order (an instance of `Seqs.Positions`) |
| NotificationController.NotificationsOfContents | backend/src/controllers/notificationController.ts:7-33 | 401 without a caller; otherwise exactly the caller's notifications, each once |
| NotificationController.NotificationsOfOrder | backend/src/controllers/notificationController.ts:26 | newest first |
| NotificationController.SetNotification | backend/src/controllers/notificationController.ts:57-60 | replaces one notification and nothing else |
| NotificationController.MarkNotificationAsRead | backend/src/controllers/notificationController.ts:36-66 | 401; 404 unless the notification is the caller's; otherwise only that one becomes read |
| NotificationController.MarkAllRead | backend/src/controllers/notificationController.ts:77-83 | the list keeps its length |
| NotificationController.MarkAllReadFacts | backend/src/controllers/notificationController.ts:77-83 | every notification of the caller is read afterwards; nobody else's changes |
| NotificationController.MarkAllReadIdempotent | backend/src/controllers/notificationController.ts:77-83 | a second call changes nothing |
| NotificationController.MarkAllNotificationsAsRead | backend/src/controllers/notificationController.ts:69-89 | 401 with no change; otherwise the notifications become those of the specification |
| NotificationController.ShareNotification | backend/src/controllers/notificationController.ts:131-139 | an unread BOOK_SHARE to the recipient from the caller about the book; an empty message becomes "te recomendou um livro" |
| NotificationController.ShareBook | backend/src/controllers/notificationController.ts:92-148 | 401, 404 for a missing recipient, with no change; otherwise the book is found or created, the catalogue cache is the one that step leaves, and exactly one share notification is added |
| NotificationController.NotifyFollow | backend/src/controllers/notificationController.ts:151-183 | 401, 404, and 500 for a missing caller, with no change; otherwise one FOLLOW notification with the fixed message is added and no follow relation changes |
| TropeController.MarkSpecFacts | backend/src/controllers/tropeController.ts:7-53 | 401 and 404 with no change; a missing caller is created; the trope joins the caller's tropes; other users unchanged |
| TropeController.MarkIdempotent | backend/src/controllers/tropeController.ts:40-47 | marking twice leaves the same table as marking once |
| TropeController.MarkTropeFavorite | backend/src/controllers/tropeController.ts:7-53 | answer and users are those of the specification |
| TropeService.TropesDataSize | backend/src/services/tropeService.ts:9-49 | the seed table has 34 rows |
| TropeService.RomanceCount | backend/src/services/tropeService.ts:9-49 | 17 rows are Romance |
| TropeService.SciFiFantasyCount | backend/src/services/tropeService.ts:9-49 | 10 rows are SciFiFantasy |
| TropeService.DramaCount | backend/src/services/tropeService.ts:9-49 | 7 rows are Drama |
| TropeService.RowOfName | backend/src/services/tropeService.ts:9-49 | each row's name identifies its row |
| TropeService.TropesDataUnique | backend/src/services/tropeService.ts:9-49 | the seed names are distinct |
| TropeService.FindByName | backend/src/services/tropeService.ts:55-56 | the position of the trope with that name, or none |
| TropeService.UpsertFacts | backend/src/services/tropeService.ts:55-62 | after an upsert the row is present as given, names stay unique, and other tropes are untouched |
| TropeService.UpsertPresent | backend/src/services/tropeService.ts:55-62 | upserting a row already present changes nothing |
| TropeService.SeedAllKeeps | backend/src/services/tropeService.ts:53-63 | seeding keeps names unique and leaves tropes not in the table untouched |
| TropeService.SeedAllContains | backend/src/services/tropeService.ts:53-63 | after seeding every table row is present with its description and category |
| TropeService.SeedAllPresent | backend/src/services/tropeService.ts:53-63 | seeding a store that already holds every row changes nothing |
| TropeService.SeedIdempotent | backend/src/services/tropeService.ts:51-67 | seeding twice gives the same store as seeding once |
| TropeService.SeedTropes | backend/src/services/tropeService.ts:51-67 | the loop upserts every row in table order and never fails to its caller |
| TropeService.UpsertTrope | backend/src/services/tropeService.ts:55-62 | one upsert by name |
| TropeService.Indexed | backend/src/services/tropeService.ts:69-73 | each trope paired with its id |
| TropeService.AllTropesFacts | backend/src/services/tropeService.ts:69-73 | every trope once, with its id, in ascending name order |
| PreferenceForm.HasId | frontend/src/components/PreferenceForm.tsx:129 | `some(t => t.id === id)` |
| PreferenceForm.DropId | frontend/src/components/PreferenceForm.tsx:130 | keeps exactly the entries with another id |
| PreferenceForm.DropIdSnoc | frontend/src/components/PreferenceForm.tsx:130-132 | removing a just-appended new trope restores the list |
| PreferenceForm.DropIdKeepsUnique | frontend/src/components/PreferenceForm.tsx:130 | filtering keeps ids unique |
| PreferenceForm.Toggle | frontend/src/components/PreferenceForm.tsx:127-145 | a liked trope is removed and disliked is unchanged; otherwise it is appended and removed from the other list; no other trope moves |
| PreferenceForm.ToggleKeepsSeparate | frontend/src/components/PreferenceForm.tsx:127-145 | toggles keep both lists duplicate-free and disjoint by id |
| PreferenceForm.ToggleTwice | frontend/src/components/PreferenceForm.tsx:127-145 | toggling a new trope twice restores both lists |
| PreferenceForm.AddName | frontend/src/components/PreferenceForm.tsx:178-199 | the name is trimmed and an empty one changes nothing; a new name is appended and leaves the other list; a present one changes nothing |
| PreferenceForm.AddNameKeepsSeparate | frontend/src/components/PreferenceForm.tsx:178-199 | adding keeps both lists duplicate-free and disjoint |
| PreferenceForm.AddNameTwice | frontend/src/components/PreferenceForm.tsx:178-199 | adding the same text twice equals adding it once |
| PreferenceForm.RemoveName | frontend/src/components/PreferenceForm.tsx:201-207 | the name leaves the list; other names stay |
| PreferenceForm.RemoveNameKeepsSeparate | frontend/src/components/PreferenceForm.tsx:201-207 | removing keeps both lists duplicate-free and disjoint |
| PreferenceForm.Matching | frontend/src/components/PreferenceForm.tsx:166-168 | exactly the categories containing the query ignoring case |
| PreferenceForm.MatchingAppend | frontend/src/components/PreferenceForm.tsx:166-168 | filtering keeps the list order |
| PreferenceForm.CategorySuggestions | frontend/src/components/PreferenceForm.tsx:148-175 | `[]` below 2 characters; otherwise the fixed 20-name list filtered |
| PreferenceForm.InitialLanguages | frontend/src/components/PreferenceForm.tsx:117-123 | `['pt']` when the initial preferences have no languages, else their codes |
| PreferenceForm.Form.LoadInitial | frontend/src/components/PreferenceForm.tsx:87-125 | unless a load is running, the lists present in the initial preferences are loaded and absent ones kept; languages get their default, which enables saving |
| PreferenceForm.Form.ToggleTrope | frontend/src/components/PreferenceForm.tsx:127-145 | the trope lists become the toggle's result and stay disjoint |
| PreferenceForm.Form.CategorySearch | frontend/src/components/PreferenceForm.tsx:148-175 | only the matching input changes; the suggestions are the category search's |
| PreferenceForm.Form.AddCategory | frontend/src/components/PreferenceForm.tsx:178-199 | the lists become the add's result; only the matching input is cleared; suggestions are cleared; the lists stay disjoint |
| PreferenceForm.Form.RemoveCategory | frontend/src/components/PreferenceForm.tsx:201-207 | only the chosen list changes |
| PreferenceForm.Form.AuthorSearch | frontend/src/components/PreferenceForm.tsx:209-223 | `[]` below 2 characters; otherwise the server's answer, or the old results on failure |
| PreferenceForm.Form.AddAuthor | frontend/src/components/PreferenceForm.tsx:225-246 | as for categories, on the author lists |
| PreferenceForm.Form.RemoveAuthor | frontend/src/components/PreferenceForm.tsx:248-254 | only the chosen list changes |
| PreferenceForm.Form.SetLanguages | frontend/src/components/PreferenceForm.tsx:256-258 | saving is enabled iff some language is chosen |
| BookDetail.StripHtmlTags | frontend/src/components/BookDetail.tsx:86-88 | the result holds no `<…>` tag, is no longer than the input and has only input characters |
| BookDetail.StripKeepsTagless | frontend/src/components/BookDetail.tsx:86-88 | a text without tags is unchanged |
| BookDetail.StripWithoutOpen | frontend/src/components/BookDetail.tsx:86-88 | a text without '<' is unchanged |
| BookDetail.StripIdempotent | frontend/src/components/BookDetail.tsx:86-88 | stripping twice equals stripping once |
| BookDetail.SortedRatings | frontend/src/components/BookDetail.tsx:250 | the sorted copy is a permutation of the ratings |
| BookDetail.RatingOrderSorts | frontend/src/components/BookDetail.tsx:250-259 | the copy is sorted by the comparator |
| BookDetail.SortedRatingsOrder | frontend/src/components/BookDetail.tsx:251-258 | followed readers' ratings come first; within each group, newer first |
| BookDetail.SortedRatingsStable | frontend/src/components/BookDetail.tsx:250-259 | ties keep their original order (the sort is stable) |
| BookDetail.ReaderRatingIndex | frontend/src/components/BookDetail.tsx:105-111 | the first rating whose user email is the reader's, or none |
| BookDetail.UsernameMatches | frontend/src/components/BookDetail.tsx:714-716 | exactly the followed users whose name contains the text ignoring case |
| BookDetail.ShareMatches | frontend/src/components/BookDetail.tsx:710-717 | a blank text shows everyone; otherwise the case-insensitive matches |
| BookDetail.UsernameOf | frontend/src/components/BookDetail.tsx:709 | the username of the user with that id, if any |
| BookDetail.Page.LoadReaderRating | frontend/src/components/BookDetail.tsx:100-128 | the reader's rating and review are loaded and the book is in history; otherwise 0, '' and not in history |
| BookDetail.Page.AddToHistory | frontend/src/components/BookDetail.tsx:288-317 | nothing is sent while the rating is 0; a success puts the book in history |
| BookDetail.Page.RemoveFromHistory | frontend/src/components/BookDetail.tsx:319-348 | a success resets rating 0, review '' and not in history |
| BookDetail.Page.LoadFollowing | frontend/src/components/BookDetail.tsx:177-188 | everyone followed is listed |
| BookDetail.Page.SearchChange | frontend/src/components/BookDetail.tsx:706-724 | the list is filtered unless the text is the selected user's name; a blank text clears the selection |
| BookDetail.Page.SearchClick | frontend/src/components/BookDetail.tsx:726-737 | with no selection the list is filtered again |
| BookDetail.Page.SelectUser | frontend/src/components/BookDetail.tsx:205-209 | the user is selected and the list hidden |
| BookDetail.Page.ResetShare | frontend/src/components/BookDetail.tsx:191-196 | the share form is cleared and everyone listed |
| BookDetail.Page.ShareBook | frontend/src/components/BookDetail.tsx:211-247 | sends only with a book and a selected user; the message defaults to the fixed text and the title; a success clears the form |
| LoginForm.Submit | frontend/src/components/LoginForm.tsx:85-147 | registration is refused iff the username is short, fails `^[a-zA-Z0-9_]+$` or an error is shown; login skips all three |
| LoginForm.SubmitReportsFirstFailure | frontend/src/components/LoginForm.tsx:90-100 | a short name is reported first |
| LoginForm.FirstMatch | frontend/src/components/LoginForm.tsx:151-169 | the text of the first matching row, or the generic message |
| LoginForm.FirstMatchStep | frontend/src/components/LoginForm.tsx:154-169 | the first row decides, or the rest does |
| LoginForm.OneKey | frontend/src/components/LoginForm.tsx:159-168 | a one-key row matches by that code or by the message containing it |
| LoginForm.TwoKeys | frontend/src/components/LoginForm.tsx:154-157 | the credentials row matches either key |
| LoginForm.ErrorMessageIsFirstMatch | frontend/src/components/LoginForm.tsx:151-169 | the if/else chain is the first-match lookup over the six rows, in order |
| LoginForm.UnknownErrorIsGeneric | frontend/src/components/LoginForm.tsx:152 | an error reporting no known key gets the generic message |
| LoginForm.ResetRequest | frontend/src/components/LoginForm.tsx:184-200 | an empty email only warns; otherwise the reset goes to that email |
| LoginForm.Form.UsernameChange | frontend/src/components/LoginForm.tsx:47-83 | only in registration mode and for 3 or more characters; the character error comes before any server check |
| LoginForm.Form.SwitchMode | frontend/src/components/LoginForm.tsx:489-492 | switching mode clears the username error |
| NotificationViews.Unread | frontend/src/components/Notifications.tsx:52 | the unread count is 0 iff every notification is read |
| NotificationViews.MarkRead | frontend/src/components/Notifications.tsx:78-80 | only the matching id becomes read |
| NotificationViews.MarkReadKeepsIds | frontend/src/components/Notifications.tsx:78-80 | marking keeps the ids |
| NotificationViews.MarkReadUnread | frontend/src/components/Notifications.tsx:78-81 | marking an unread notification lowers the count by one; a read one leaves it |
| NotificationViews.MarkAll | frontend/src/components/Notifications.tsx:90 | every notification becomes read |
| NotificationViews.MarkAllUnread | frontend/src/components/Notifications.tsx:90-91 | afterwards nothing is unread |
| NotificationViews.MarkAllIdempotent | frontend/src/components/Notifications.tsx:90 | a second mark-all changes nothing |
| NotificationViews.Route | frontend/src/components/Notifications.tsx:110-114 | FOLLOW with a sender goes to `/user/<id>`, BOOK_SHARE with a book to `/books/<id>`, otherwise nowhere |
| NotificationViews.RouteDeterminesTarget | frontend/src/components/Notifications.tsx:110-114 | the same route means the same kind and target |
| NotificationsPage.Page.Load | frontend/src/components/Notifications.tsx:47-72 | after loading the counter is the number of unread notifications and the followed ids are loaded |
| NotificationsPage.Page.MarkAsRead | frontend/src/components/Notifications.tsx:75-85 | only the matching id becomes read and the counter drops by 1, unclamped |
| NotificationsPage.Page.MarkAllAsRead | frontend/src/components/Notifications.tsx:87-103 | all read, counter 0 |
| NotificationsPage.Page.Click | frontend/src/components/Notifications.tsx:105-115 | a read notification changes nothing; an unread one becomes read and the counter drops by 1 after a successful request, and a failed request changes nothing; the counter keeps matching the list; the route is always the notification's |
| NotificationsPage.Page.FollowBack | frontend/src/components/Notifications.tsx:117-120 | the user joins the followed ids; no one leaves; after a success no follow-back button is offered for that sender |
| NotificationsPage.Page.FollowBackOffered | frontend/src/components/Notifications.tsx:245-267 | on a follow with a sender exactly one of the follow-back button and the "Já segue" badge is shown; on anything else neither |
| NotificationBadge.BadgeRoute | frontend/src/components/NotificationBadge.tsx:96-98 | only a notification with a book is clickable, and it leads to `/books/<bookId>` |
| NotificationBadge.Decrement | frontend/src/components/NotificationBadge.tsx:65 | `Math.max(0, n - 1)` is never negative |
| NotificationBadge.Badge.Fetch | frontend/src/components/NotificationBadge.tsx:39-53 | after fetching the counter is the number of unread notifications |
| NotificationBadge.Badge.MarkAsRead | frontend/src/components/NotificationBadge.tsx:55-69 | only the matching id becomes read; the counter is decremented and clamped |
| NotificationBadge.Badge.MarkAllAsRead | frontend/src/components/NotificationBadge.tsx:71-90 | all read, counter 0 |
| NotificationBadge.Badge.Click | frontend/src/components/NotificationBadge.tsx:92-99 | as written: a notification with a book is marked read and the clamped counter decremented after a successful request, whether it was read or not; a failed request or no book changes nothing; the route is the book's page |
| NotificationBadge.Badge.ClickChecked | frontend/src/components/NotificationBadge.tsx:92-99 | a read notification or one without a book changes nothing; an unread one with a book becomes read and the counter is decremented after a successful request, and a failed request changes nothing; the counter keeps matching the list |
| NotificationBadge.ReadClickUndercounts | frontend/src/components/NotificationBadge.tsx:92-94 | clicking a read notification leaves the counter at 0 while one notification is unread |
| NotificationBadge.CheckedClickCounts | frontend/src/components/NotificationBadge.tsx:92-94 | the same click through the checked handler keeps the counter at 1 |
| NotificationsButton.Preview | frontend/src/components/NotificationsButton.tsx:127 | at most the first two notifications, in order |
| NotificationsButton.Overflow | frontend/src/components/NotificationsButton.tsx:200-214 | the "+N" entry appears iff there are more than two |
| NotificationsButton.PreviewAccounts | frontend/src/components/NotificationsButton.tsx:200-214 | the preview and the overflow number account for every notification |
| NotificationsButton.Button.Fetch | frontend/src/components/NotificationsButton.tsx:46-54 | after fetching the counter is the number of unread notifications |
| NotificationsButton.Button.Click | frontend/src/components/NotificationsButton.tsx:56-73 | an unread notification is marked and the counter drops by 1, and a failed mark stops there; a read one changes nothing; otherwise the popover closes and the route is the notification's |
| NotificationsButton.Button.ViewAll | frontend/src/components/NotificationsButton.tsx:75-78 | goes to the notifications page and closes the popover |
| Seqs.DistinctFirstOccurrenceOrder | backend/src/controllers/bookController.ts:508-515 | a JavaScript `Set` lists its elements in first-insertion order |
| Seqs.SortByStable | frontend/src/components/BookDetail.tsx:250 | the sort is stable: equivalent elements keep their order |
| Text.TrimIdempotent | frontend/src/components/PreferenceForm.tsx:179 | `trim` twice equals `trim` once |
| Text.IntToStringInjective | backend/src/services/googleBooksService.ts:51 | distinct numbers print differently, so cache keys tell pages apart |

## Left out

- HTTP plumbing (Express routes, request and response objects, start-up) is not modelled; each handler returns only its status and body.
- Token verification (Firebase) is not modelled. The current user is an `Option<AuthUser>` parameter.
- The ORM is modelled by the maps and sets of `Store.Db`. Unique-key races are modelled only as the P2002 branch of `getBookDetails`. A nested `connect` to a missing row fails the update, as the database does.
- The catalogue HTTP calls, the 8-second timeouts and the real `setTimeout` sleeps are replaced by an outcome sequence and a list of recorded waits. The clock during retries advances only by those waits, not by request latency.
- GoogleBooks.Gateway.SearchBooks: `retries` is bounded by the default 3, which every caller uses; a larger caller-supplied value is not modelled.
- Concurrency is not modelled: `Promise.all` fan-out runs the enrichment searches one after another, duplicate cache misses from concurrent requests cannot happen, and the 30-second polling (`setInterval`) of the notification views is left out.
- The generative model and `JSON.parse` are uninterpreted function parameters (`generate`, `parse`); only the span extraction, the clean-up and the decisions around them are modelled.
- `toLowerCase` and the `mode: 'insensitive'` match are modelled as ASCII case folding; Unicode case folding is not modelled. `\s` and `trim` use JavaScript's full white-space set (`Text.IsSpace`).
- String length is counted in characters, while JavaScript's `.length` counts UTF-16 code units; the two agree on text without characters outside the Basic Multilingual Plane, and the 3-character username bound and the 2-character search threshold are modelled on characters.
- PreferenceController.SearchAuthors: the database's `orderBy: { name: 'asc' }` (preferenceController.ts:263) is modelled as code-point order (`Text.LexLe`); a locale collation may order names differently (for example "anne" before "Bob") and so pick other first 10 authors.
- TropeService.AllTropesFacts: `orderBy: { name: 'asc' }` (tropeService.ts:71) is likewise modelled as code-point order.
- BookController.GetBookDetails: the ratings included with the book (score, review, the rater's email and username, `createdAt`) and the 500's `message` text are not modelled; the response carries the book record only.
- `createdAt` timestamps are integers; `new Date(...)` parsing is not modelled.
- BookDetail.SortedRatings: a rating without a `user` would make the source comparator throw; the model assumes every rating has its user.
- Toasts, loading flags, `console.error` and the navigation side effect are left out; navigation is modelled as the returned target path.
- The 300 ms debounce in `handleUsernameChange` is left out; the length re-check after it is then always true.
- PreferenceForm.Form.AuthorSearch: the author search request is a parameter (`answer`); its results come from `searchAuthors`, modelled in the back end.
- RecommendationController.UpdateRecommendationSettings: the request's `enabled` value is an `Option<bool>`; `None` stands for any non-boolean value.
- `parseInt` on query parameters is not modelled: `startIndex` and `maxResults` arrive as optional integers.
- `getUserReadHistory`, `getUserReadingList` and `getUserFavorites` (bookController.ts:375-492) are plain reads with no logic beyond a query, and are not modelled.
- `getAllTropes` and `getUserPreferences` in preferenceController.ts (6-49) are plain reads and are not modelled.
- `updateProfilePicture` (userController.ts:68-106) stores an image string and is not modelled; the image resizing in `UserProfile.tsx` is canvas and floating-point work.
- `getFollowers` and `getFollowing` (userController.ts:205-258) are plain reads and are not modelled.
- `frontend/src/services/api.ts` is a thin HTTP wrapper and is not part of this model; its calls are the `succeeded` and data parameters of the component methods.
- Components whose only logic is rendering or a one-line filter over fetched data (favourites, reading list, followers, search pages, chat pages, navigation bar, layout, auth context, theme) are not modelled.
- Random sparkle positions in `LoginForm.tsx` are not modelled.
- Store errors other than those named in the contracts (database outages, which the handlers turn into 500) are not modelled; `seedTropes`'s swallowed errors therefore leave nothing to model beyond its never failing.

## Findings

| source | as written | input that shows it | evidently intended | confidence | as-written member | corrected member |
|---|---|---|---|---|---|---|
| frontend/src/components/NotificationBadge.tsx:92-94 | a click calls `markAsRead` without checking `isRead`, so the clamped counter also drops for a notification that was already read | notifications `[n1 read, n2 unread]`, both with a book; counter 1; click n1: the counter becomes 0 while n2 is still unread | mark and decrement only an unread notification, as `Notifications.tsx` and `NotificationsButton.tsx` do | medium, not executed | NotificationBadge.ReadClickUndercounts | NotificationBadge.CheckedClickCounts |
