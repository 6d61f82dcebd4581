/** The book handlers: searching the catalogue, book details, the reading
    history with its ratings, the favourites and reading-list toggles, and the
    category and author suggestions drawn from search results. */
module BookController {
  import opened Wrappers
  import opened Text
  import opened Seqs
  import GB = GoogleBooks
  import opened Store


  // ---------------------------------------------------------------
  // searchGoogleBooks
  // ---------------------------------------------------------------

  /** The paging parameters of a search: a start index given in the query
      string is used, otherwise 0; a page size given is used, otherwise 10. */
  function PageParams(startIndex: Option<int>, maxResults: Option<int>): (p: (int, int))
    ensures startIndex.Some? ==> p.0 == startIndex.value
    ensures startIndex.None? ==> p.0 == 0
    ensures maxResults.Some? ==> p.1 == maxResults.value
    ensures maxResults.None? ==> p.1 == 10
  {
    (startIndex.GetOr(0), maxResults.GetOr(10))
  }

  /** `searchGoogleBooks`: an empty query is refused with 400; otherwise the
      gateway's answer is formatted, an answer without items being the empty
      listing. */
  method SearchGoogleBooks(gw: GB.Gateway, query: string, startIndex: Option<int>, maxResults: Option<int>,
                           now: int, outcomes: seq<GB.Outcome<GB.SearchResponse>>)
    returns (res: Response<GB.Listing>)
    requires gw.Valid() && |outcomes| > GB.DefaultRetries
    modifies gw
    ensures gw.Valid()
    ensures query == [] ==> res == Error(400, QueryRequired) && gw.cache == old(gw.cache)
    ensures query != [] ==>
      var p := PageParams(startIndex, maxResults);
      var run := GB.SearchSpec(old(gw.cache), GB.SearchKey(query, p.0, p.1), now, outcomes, GB.DefaultRetries);
      && gw.cache == run.cache
      && res == Ok(200, if run.result.items.None? then GB.Listing([], 0) else GB.FormatSearchResults(run.result))
  {
    if query == [] {
      return Error(400, QueryRequired);
    }
    var p := PageParams(startIndex, maxResults);
    var result, _, _ := gw.SearchBooks(query, p.0, p.1, GB.DefaultRetries, now, outcomes);
    if result.items.None? {
      return Ok(200, GB.Listing([], 0));
    }
    return Ok(200, GB.FormatSearchResults(result));
  }

  /** A search answered without items and one answered with an empty list of
      items both come back as the empty listing. */
  lemma NoItemsIsEmptyListing(r: GB.SearchResponse)
    requires r.items.None? || r.items.value == []
    ensures (if r.items.None? then GB.Listing([], 0) else GB.FormatSearchResults(r)) == GB.Listing([], 0)
  {
  }

  // ---------------------------------------------------------------
  // Finding or fetching a book
  // ---------------------------------------------------------------

  /** The book a handler works on after looking `googleBookId` up in the
      store and, when it is not stored, fetching and formatting it: the key
      of the record, or None when formatting throws (no volume information)
      or the formatted record's id is already stored (a unique-key conflict). */
  function ResolveBook(books: map<string, GB.BookData>, cache: map<string, GB.CacheEntry>,
                       googleBookId: string, now: int, outcome: GB.Outcome<GB.Volume>): (key: Option<string>)
    requires GB.WellFormed(cache)
  {
    if googleBookId in books then Some(googleBookId)
    else
      var f := GB.FormatBookData(GB.BookSpec(cache, googleBookId, now, outcome).volume);
      if f.None? || f.value.googleBookId in books then None else Some(f.value.googleBookId)
  }

  /** The book table after that step. */
  function BooksAfterResolve(books: map<string, GB.BookData>, cache: map<string, GB.CacheEntry>,
                             googleBookId: string, now: int, outcome: GB.Outcome<GB.Volume>): (r: map<string, GB.BookData>)
    requires GB.WellFormed(cache)
    ensures books.Keys <= r.Keys && forall k :: k in books ==> r[k] == books[k]
    ensures r.Keys <= books.Keys + {googleBookId} + {GB.BookSpec(cache, googleBookId, now, outcome).volume.id}
    ensures ResolveBook(books, cache, googleBookId, now, outcome).Some? ==>
              ResolveBook(books, cache, googleBookId, now, outcome).value in r
    ensures ResolveBook(books, cache, googleBookId, now, outcome).None? ==> r == books
  {
    if googleBookId in books then books
    else
      var f := GB.FormatBookData(GB.BookSpec(cache, googleBookId, now, outcome).volume);
      if f.None? || f.value.googleBookId in books then books else books[f.value.googleBookId := f.value]
  }

  /** The catalogue cache after that step: a stored book costs no request;
      otherwise the cache is the one the book lookup leaves, which gains at
      most the fetched record. */
  function CacheAfterResolve(books: map<string, GB.BookData>, cache: map<string, GB.CacheEntry>,
                             googleBookId: string, now: int, outcome: GB.Outcome<GB.Volume>): (r: map<string, GB.CacheEntry>)
    requires GB.WellFormed(cache)
    ensures GB.WellFormed(r)
    ensures googleBookId in books ==> r == cache
    ensures r != cache ==>
      && googleBookId !in books && outcome.Ok? && GB.IsValidGoogleBookId(googleBookId)
      && r == cache[GB.BookKey(googleBookId) := GB.CacheEntry(GB.BookRecord(outcome.data), now)]
  {
    if googleBookId in books then cache
    else
      GB.BookSpecCaching(cache, googleBookId, now, outcome);
      GB.BookSpec(cache, googleBookId, now, outcome).cache
  }

  /** A stored book is used as it is, with no request. */
  lemma StoredBookIsUsed(books: map<string, GB.BookData>, cache: map<string, GB.CacheEntry>,
                         googleBookId: string, now: int, outcome: GB.Outcome<GB.Volume>)
    requires GB.WellFormed(cache) && googleBookId in books
    ensures ResolveBook(books, cache, googleBookId, now, outcome) == Some(googleBookId)
    ensures BooksAfterResolve(books, cache, googleBookId, now, outcome) == books
  {
  }

  /** An unstored malformed id makes the handlers store the formatted
      fallback record under that id, without any upstream request. */
  lemma InvalidIdStoresFallback(books: map<string, GB.BookData>, cache: map<string, GB.CacheEntry>,
                                googleBookId: string, now: int, outcome: GB.Outcome<GB.Volume>)
    requires GB.WellFormed(cache) && googleBookId !in books && !GB.IsValidGoogleBookId(googleBookId)
    ensures ResolveBook(books, cache, googleBookId, now, outcome) == Some(googleBookId)
    ensures BooksAfterResolve(books, cache, googleBookId, now, outcome)
              == books[googleBookId := GB.BookData(googleBookId, GB.FallbackTitle, GB.UnknownAuthor,
                                                   GB.FallbackDescription, None, None, None, [], None)]
  {
    GB.InvalidIdGetsFallback(cache, googleBookId, now, outcome);
    GB.FormatFallback(googleBookId);
  }

  /** Looks the book up and, when missing, fetches, formats and creates it. */
  method EnsureBook(db: Db, gw: GB.Gateway, googleBookId: string, now: int, outcome: GB.Outcome<GB.Volume>)
    returns (key: Option<string>)
    requires db.Valid() && gw.Valid()
    modifies db`books, gw
    ensures db.Valid() && gw.Valid()
    ensures key == ResolveBook(old(db.books), old(gw.cache), googleBookId, now, outcome)
    ensures db.books == BooksAfterResolve(old(db.books), old(gw.cache), googleBookId, now, outcome)
    ensures gw.cache == CacheAfterResolve(old(db.books), old(gw.cache), googleBookId, now, outcome)
  {
    if googleBookId in db.books {
      return Some(googleBookId);
    }
    var v, _ := gw.GetBookById(googleBookId, now, outcome);
    var f := GB.FormatBookData(v);
    if f.None? || f.value.googleBookId in db.books {
      return None;
    }
    db.books := db.books[f.value.googleBookId := f.value];
    key := Some(f.value.googleBookId);
    assert LinksResolve(db.users, db.books, |db.tropes|, db.categories, db.authors, db.languages) by {
      forall u | u in db.users
        ensures UserLinksResolve(db.users[u], db.users, db.books, |db.tropes|, db.categories, db.authors, db.languages)
      {
        assert UserLinksResolve(db.users[u], db.users, old(db.books), |db.tropes|, db.categories, db.authors, db.languages);
      }
    }
  }

  // ---------------------------------------------------------------
  // getBookDetails
  // ---------------------------------------------------------------

  /** `getBookDetails`: a stored book is answered as it is; otherwise it is
      fetched, formatted and stored. When the formatted record's id is already
      stored, the conflict is answered by reading the requested id again,
      which finds nothing. A record that cannot be formatted gives 500. */
  method GetBookDetails(db: Db, gw: GB.Gateway, googleBookId: string, now: int, outcome: GB.Outcome<GB.Volume>)
    returns (res: Response<Option<GB.BookData>>)
    requires db.Valid() && gw.Valid()
    modifies db`books, gw
    ensures db.Valid() && gw.Valid()
    ensures googleBookId in old(db.books) ==>
      res == Ok(200, Some(old(db.books)[googleBookId])) && db.books == old(db.books) && gw.cache == old(gw.cache)
    ensures googleBookId !in old(db.books) ==>
      var f := GB.FormatBookData(GB.BookSpec(old(gw.cache), googleBookId, now, outcome).volume);
      && gw.cache == GB.BookSpec(old(gw.cache), googleBookId, now, outcome).cache
      && (f.None? ==> res == Error(500, "Error retrieving book details") && db.books == old(db.books))
      && (f.Some? && f.value.googleBookId in old(db.books) ==> res == Ok(200, None) && db.books == old(db.books))
      && (f.Some? && f.value.googleBookId !in old(db.books) ==>
            res == Ok(200, f) && db.books == old(db.books)[f.value.googleBookId := f.value])
  {
    if googleBookId in db.books {
      return Ok(200, Some(db.books[googleBookId]));
    }
    var v, _ := gw.GetBookById(googleBookId, now, outcome);
    var f := GB.FormatBookData(v);
    if f.None? {
      return Error(500, "Error retrieving book details");
    }
    if f.value.googleBookId in db.books {
      // the unique-key conflict is answered by a second lookup of the
      // requested id, which is not stored
      return Ok(200, None);
    }
    db.books := db.books[f.value.googleBookId := f.value];
    assert LinksResolve(db.users, db.books, |db.tropes|, db.categories, db.authors, db.languages) by {
      forall u | u in db.users
        ensures UserLinksResolve(db.users[u], db.users, db.books, |db.tropes|, db.categories, db.authors, db.languages)
      {
        assert UserLinksResolve(db.users[u], db.users, old(db.books), |db.tropes|, db.categories, db.authors, db.languages);
      }
    }
    return Ok(200, f);
  }

  // ---------------------------------------------------------------
  // Reading history and ratings
  // ---------------------------------------------------------------

  /** Position of the first rating by `userId` of `bookId`. */
  function FindRating(ratings: seq<Rating>, userId: string, bookId: string): (r: Option<nat>)
    ensures r.Some? ==> r.value < |ratings| && ratings[r.value].userId == userId && ratings[r.value].bookId == bookId
    ensures r.Some? ==> forall i :: 0 <= i < r.value ==> !(ratings[i].userId == userId && ratings[i].bookId == bookId)
    ensures r.None? ==> forall i :: 0 <= i < |ratings| ==> !(ratings[i].userId == userId && ratings[i].bookId == bookId)
  {
    if ratings == [] then None
    else if ratings[0].userId == userId && ratings[0].bookId == bookId then Some(0)
    else
      var r := FindRating(ratings[1..], userId, bookId);
      if r.None? then None else Some(r.value + 1)
  }

  /** The rating table after `addBookToHistory`: an existing rating of the
      book by the user gets the new score and review, otherwise a rating is
      appended. */
  function UpsertRating(ratings: seq<Rating>, userId: string, bookId: string, rating: int, review: string,
                        now: int): seq<Rating>
  {
    match FindRating(ratings, userId, bookId)
    case Some(i) => ratings[i := ratings[i].(rating := rating, review := review)]
    case None => ratings + [Rating(userId, bookId, rating, review, now)]
  }

  predicate OneRatingPerBook(ratings: seq<Rating>)
  {
    forall i, j :: 0 <= i < j < |ratings| ==>
      !(ratings[i].userId == ratings[j].userId && ratings[i].bookId == ratings[j].bookId)
  }

  /** The upsert leaves exactly one rating of the book by the user, carrying
      the new score and review, keeps at most one rating per (user, book),
      and leaves every other rating as it was. */
  lemma UpsertRatingFacts(ratings: seq<Rating>, userId: string, bookId: string, rating: int, review: string, now: int)
    requires OneRatingPerBook(ratings)
    ensures var r := UpsertRating(ratings, userId, bookId, rating, review, now);
      && OneRatingPerBook(r)
      && (exists i :: 0 <= i < |r| && r[i].userId == userId && r[i].bookId == bookId
                      && r[i].rating == rating && r[i].review == review)
      && (forall i :: 0 <= i < |ratings| && !(ratings[i].userId == userId && ratings[i].bookId == bookId) ==>
            r[i] == ratings[i])
      && |r| <= |ratings| + 1
  {
    var r := UpsertRating(ratings, userId, bookId, rating, review, now);
    match FindRating(ratings, userId, bookId)
    case Some(i) =>
      assert r[i].userId == userId && r[i].bookId == bookId;
    case None =>
      assert r[|ratings|].userId == userId && r[|ratings|].bookId == bookId;
  }

  /** The rating table after `removeBookFromHistory`: every rating of the
      book by the user is deleted. */
  function DeleteRatings(ratings: seq<Rating>, userId: string, bookId: string): (r: seq<Rating>)
    ensures forall i :: 0 <= i < |r| ==> !(r[i].userId == userId && r[i].bookId == bookId)
    ensures forall i :: 0 <= i < |r| ==> r[i] in ratings
    ensures forall i :: 0 <= i < |ratings| && !(ratings[i].userId == userId && ratings[i].bookId == bookId) ==>
              ratings[i] in r
  {
    Filter(ratings, (x: Rating) => !(x.userId == userId && x.bookId == bookId))
  }

  const HistoryAdded := "Livro adicionado ao histórico com sucesso"
  const HistoryAddFailed := "Erro ao adicionar livro ao histórico"

  /** `addBookToHistory`: 401 without a user; otherwise the book is found or
      fetched, the user found or created, the book joins the user's books and
      the rating is updated or created. */
  method AddBookToHistory(db: Db, gw: GB.Gateway, auth: Option<AuthUser>, googleBookId: string,
                          rating: int, review: string, now: int, outcome: GB.Outcome<GB.Volume>)
    returns (res: Response<string>)
    requires db.Valid() && gw.Valid()
    modifies db, gw
    ensures db.Valid() && gw.Valid()
    ensures auth.None? ==> res == Error(401, NotAuthenticated) && unchanged(db) && unchanged(gw)
    ensures auth.Some? ==>
      var key := ResolveBook(old(db.books), old(gw.cache), googleBookId, now, outcome);
      var uid := auth.value.uid;
      && db.books == BooksAfterResolve(old(db.books), old(gw.cache), googleBookId, now, outcome)
      && (res.Ok? <==> key.Some? && Ensured(old(db.users), auth.value).Some?)
      && (res.Ok? <==> key.Some? && uid in db.users)
      && (res.Ok? ==>
            && res == Ok(200, HistoryAdded)
            && (var before := if uid in old(db.users) then old(db.users)[uid] else AutoUser(auth.value);
                db.users == old(db.users)[uid := before.(books := before.books + {key.value})])
            && db.ratings == UpsertRating(old(db.ratings), uid, key.value, rating, review, now))
      && gw.cache == CacheAfterResolve(old(db.books), old(gw.cache), googleBookId, now, outcome)
      && (res.Error? ==> res == Error(500, HistoryAddFailed) && db.ratings == old(db.ratings) && db.users == old(db.users))
    ensures unchanged(db`notifications, db`tropes, db`categories, db`authors, db`languages, db`settings)
  {
    if auth.None? {
      return Error(401, NotAuthenticated);
    }
    var uid := auth.value.uid;
    var key := EnsureBook(db, gw, googleBookId, now, outcome);
    if key.None? {
      return Error(500, HistoryAddFailed);
    }
    var ok := ConnectBook(db, auth.value, key.value);
    if !ok {
      return Error(500, HistoryAddFailed);
    }
    SaveRating(db, uid, key.value, rating, review, now);
    return Ok(200, HistoryAdded);
  }

  /** The user step of `addBookToHistory`: find or create the user, then
      connect the book to the user's books. */
  method ConnectBook(db: Db, auth: AuthUser, bookId: string) returns (ok: bool)
    requires db.Valid() && bookId in db.books
    modifies db`users
    ensures db.Valid()
    ensures ok == Ensured(old(db.users), auth).Some?
    ensures ok <==> auth.uid in db.users
    ensures ok ==>
      var before := if auth.uid in old(db.users) then old(db.users)[auth.uid] else AutoUser(auth);
      db.users == old(db.users)[auth.uid := before.(books := before.books + {bookId})]
    ensures !ok ==> db.users == old(db.users)
  {
    ok := db.EnsureUser(auth);
    if ok {
      var u := db.users[auth.uid];
      db.PutUser(auth.uid, u.(books := u.books + {bookId}));
    }
  }

  /** The rating step of `addBookToHistory`: update the first rating of the
      book by the user, or create one. */
  method SaveRating(db: Db, userId: string, bookId: string, rating: int, review: string, now: int)
    requires db.Valid() && userId in db.users && bookId in db.books
    modifies db`ratings
    ensures db.Valid()
    ensures db.ratings == UpsertRating(old(db.ratings), userId, bookId, rating, review, now)
  {
    var found := FindRating(db.ratings, userId, bookId);
    UpsertRatingFacts(db.ratings, userId, bookId, rating, review, now);
    if found.Some? {
      var i := found.value;
      db.ratings := db.ratings[i := db.ratings[i].(rating := rating, review := review)];
    } else {
      db.ratings := db.ratings + [Rating(userId, bookId, rating, review, now)];
    }
  }

  const HistoryRemoved := "Livro removido do histórico com sucesso"
  const HistoryRemoveFailed := "Erro ao remover livro do histórico"

  /** `removeBookFromHistory`: 401 without a user, 404 for a book that is not
      stored; otherwise the user's ratings of the book are deleted and the
      book leaves the user's books. A user with no record makes the second
      step throw after the first has run. */
  method RemoveBookFromHistory(db: Db, auth: Option<AuthUser>, googleBookId: string)
    returns (res: Response<string>)
    requires db.Valid()
    modifies db
    ensures db.Valid()
    ensures auth.None? ==> res == Error(401, NotAuthenticated) && unchanged(db)
    ensures auth.Some? && googleBookId !in old(db.books) ==> res == Error(404, "Livro não encontrado") && unchanged(db)
    ensures auth.Some? && googleBookId in old(db.books) ==>
      var uid := auth.value.uid;
      && db.ratings == DeleteRatings(old(db.ratings), uid, googleBookId)
      && (uid in old(db.users) ==>
            && res == Ok(200, HistoryRemoved)
            && db.users == old(db.users)[uid := old(db.users)[uid].(books := old(db.users)[uid].books - {googleBookId})])
      && (uid !in old(db.users) ==> res == Error(500, HistoryRemoveFailed) && db.users == old(db.users))
    ensures unchanged(db`books, db`notifications, db`tropes, db`categories, db`authors, db`languages, db`settings)
  {
    if auth.None? {
      return Error(401, NotAuthenticated);
    }
    var uid := auth.value.uid;
    if googleBookId !in db.books {
      return Error(404, "Livro não encontrado");
    }
    db.ratings := DeleteRatings(db.ratings, uid, googleBookId);
    FilterKeepsOneRating(old(db.ratings), (x: Rating) => !(x.userId == uid && x.bookId == googleBookId));
    if uid !in db.users {
      return Error(500, HistoryRemoveFailed);
    }
    var u := db.users[uid];
    db.PutUser(uid, u.(books := u.books - {googleBookId}));
    return Ok(200, HistoryRemoved);
  }

  /** Deleting ratings keeps at most one rating per (user, book). */
  lemma {:induction false} FilterKeepsOneRating(ratings: seq<Rating>, p: Rating -> bool)
    requires OneRatingPerBook(ratings)
    ensures OneRatingPerBook(Filter(ratings, p))
  {
    if ratings != [] {
      var t := Filter(ratings[1..], p);
      FilterKeepsOneRating(ratings[1..], p);
      if p(ratings[0]) {
        var x := ratings[0];
        forall j | 0 <= j < |t|
          ensures !(x.userId == t[j].userId && x.bookId == t[j].bookId)
        {
          var k :| 0 <= k < |ratings[1..]| && ratings[1..][k] == t[j];
          assert ratings[k + 1] == t[j];
        }
        assert Filter(ratings, p) == [x] + t;
      }
    }
  }

  // ---------------------------------------------------------------
  // Favourites and reading list
  // ---------------------------------------------------------------

  /** Connect `x` when it is absent, disconnect it when present. */
  function Toggle(s: set<string>, x: string): (r: set<string>)
    ensures x in r <==> x !in s
    ensures r - {x} == s - {x}
  {
    if x in s then s - {x} else s + {x}
  }

  /** Toggling twice restores the original set. */
  lemma ToggleTwice(s: set<string>, x: string)
    ensures Toggle(Toggle(s, x), x) == s
  {
  }

  datatype ListKind = Favorites | ReadingList

  function ListOf(u: User, kind: ListKind): set<string>
  {
    match kind
    case Favorites => u.favorites
    case ReadingList => u.readingList
  }

  function WithList(u: User, kind: ListKind, s: set<string>): (r: User)
    ensures ListOf(r, kind) == s
  {
    match kind
    case Favorites => u.(favorites := s)
    case ReadingList => u.(readingList := s)
  }

  function ToggleMessage(kind: ListKind, removed: bool): string
  {
    match kind
    case Favorites => if removed then "Livro removido dos favoritos" else "Livro adicionado aos favoritos"
    case ReadingList => if removed then "Livro removido da lista de leitura" else "Livro adicionado à lista de leitura"
  }

  function ToggleFailure(kind: ListKind): string
  {
    match kind
    case Favorites => "Erro ao alterar status de favorito do livro"
    case ReadingList => "Erro ao alterar status da lista de leitura"
  }

  /** `toggleBookFavorite` (kind Favorites) and `toggleReadingList` (kind
      ReadingList): 401 without a user; otherwise the book is found or
      fetched and then removed from the list when it is on it, added
      otherwise. A user with no record makes the update throw (500) after the
      book has been stored. */
  method ToggleList(db: Db, gw: GB.Gateway, kind: ListKind, auth: Option<AuthUser>, googleBookId: string,
                    now: int, outcome: GB.Outcome<GB.Volume>)
    returns (res: Response<string>)
    requires db.Valid() && gw.Valid()
    modifies db, gw
    ensures db.Valid() && gw.Valid()
    ensures auth.None? ==> res == Error(401, NotAuthenticated) && unchanged(db) && unchanged(gw)
    ensures auth.Some? ==>
      var key := ResolveBook(old(db.books), old(gw.cache), googleBookId, now, outcome);
      var uid := auth.value.uid;
      && db.books == BooksAfterResolve(old(db.books), old(gw.cache), googleBookId, now, outcome)
      && (res.Ok? <==> key.Some? && uid in old(db.users))
      && (res.Ok? ==>
            var u := old(db.users)[uid];
            && res == Ok(200, ToggleMessage(kind, key.value in ListOf(u, kind)))
            && db.users == old(db.users)[uid := WithList(u, kind, Toggle(ListOf(u, kind), key.value))])
      && gw.cache == CacheAfterResolve(old(db.books), old(gw.cache), googleBookId, now, outcome)
      && (res.Error? ==> res == Error(500, ToggleFailure(kind)) && db.users == old(db.users))
    ensures unchanged(db`ratings, db`notifications, db`tropes, db`categories, db`authors, db`languages, db`settings)
  {
    if auth.None? {
      return Error(401, NotAuthenticated);
    }
    var uid := auth.value.uid;
    var key := EnsureBook(db, gw, googleBookId, now, outcome);
    if key.None? || uid !in db.users {
      return Error(500, ToggleFailure(kind));
    }
    var u := db.users[uid];
    var onList := key.value in ListOf(u, kind);
    db.PutUser(uid, WithList(u, kind, Toggle(ListOf(u, kind), key.value)));
    return Ok(200, ToggleMessage(kind, onList));
  }

  // ---------------------------------------------------------------
  // getCommonCategories
  // ---------------------------------------------------------------

  const CommonCategories: seq<string> := [
    "Ficção", "Fantasia", "Ficção científica", "Romance", "Mistério",
    "Thriller", "Terror", "Biografia", "História", "Autoajuda",
    "Young Adult", "Infantil", "Poesia", "Drama", "HQs"]

  /** The categories the search results list, in order; None when a result
      has no volume information (reading its categories throws). */
  function CategoriesOf(items: seq<GB.Volume>): Option<seq<string>>
  {
    if items == [] then Some([])
    else
      var init := CategoriesOf(items[..|items| - 1]);
      var last := items[|items| - 1];
      if init.None? || last.volumeInfo.None? then None
      else Some(init.value + last.volumeInfo.value.categories.GetOr([]))
  }

  /** One result without volume information makes the whole listing fail. */
  lemma {:induction false} CategoriesFailOn(items: seq<GB.Volume>, i: nat)
    requires i < |items| && items[i].volumeInfo.None?
    ensures CategoriesOf(items).None?
  {
    if i < |items| - 1 {
      CategoriesFailOn(items[..|items| - 1], i);
    }
  }

  /** The inner loop of `getCommonCategories`: appends each of `more` not
      seen yet, keeping `seen` the distinct elements of everything read. */
  method AppendNew(seen: seq<string>, ghost before: seq<string>, more: seq<string>) returns (r: seq<string>)
    requires seen == Distinct(before)
    ensures r == Distinct(before + more)
  {
    r := seen;
    var j := 0;
    assert before + more[..0] == before;
    while j < |more|
      invariant 0 <= j <= |more|
      invariant r == Distinct(before + more[..j])
    {
      ExtendDistinct(before, more, j);
      if more[j] !in r {
        r := r + [more[j]];
      }
      j := j + 1;
    }
    assert more[..j] == more;
  }

  /** One step of `AppendNew`: the next name is appended unless already met. */
  lemma ExtendDistinct(before: seq<string>, more: seq<string>, j: nat)
    requires j < |more|
    ensures Distinct(before + more[..j + 1]) ==
      var d := Distinct(before + more[..j]);
      if more[j] in d then d else d + [more[j]]
  {
    DistinctSnoc(before + more[..j], more[j]);
    assert before + more[..j + 1] == (before + more[..j]) + [more[j]];
  }

  /** The loop of `getCommonCategories`: each category once, in order of
      first occurrence, or None when a result has no volume information. */
  method CollectCategories(items: seq<GB.Volume>) returns (r: Option<seq<string>>)
    ensures CategoriesOf(items).None? ==> r.None?
    ensures CategoriesOf(items).Some? ==> r == Some(Distinct(CategoriesOf(items).value))
  {
    var seen: seq<string> := [];
    var i := 0;
    while i < |items|
      invariant 0 <= i <= |items|
      invariant CategoriesOf(items[..i]).Some? && seen == Distinct(CategoriesOf(items[..i]).value)
    {
      assert items[..i + 1][..i] == items[..i];
      if items[i].volumeInfo.None? {
        CategoriesFailOn(items, i);
        return None;
      }
      var cats := items[i].volumeInfo.value.categories.GetOr([]);
      seen := AppendNew(seen, CategoriesOf(items[..i]).value, cats);
      i := i + 1;
    }
    assert items[..i] == items;
    return Some(seen);
  }

  /** `getCommonCategories`: with a query, the categories of the results of
      the search `subject:<query>` (first page of 10), each once, in order of
      first occurrence; without one, the fixed list. */
  method GetCommonCategories(gw: GB.Gateway, query: string, now: int, outcomes: seq<GB.Outcome<GB.SearchResponse>>)
    returns (res: Response<seq<string>>)
    requires gw.Valid() && |outcomes| > GB.DefaultRetries
    modifies gw
    ensures gw.Valid()
    ensures query == [] ==> res == Ok(200, CommonCategories) && gw.cache == old(gw.cache)
    ensures query != [] ==>
      var run := GB.SearchSpec(old(gw.cache), GB.SearchKey("subject:" + query, 0, 10), now, outcomes, GB.DefaultRetries);
      var found := CategoriesOf(run.result.items.GetOr([]));
      && gw.cache == run.cache
      && res == if found.None? then Error(500, "Error getting categories") else Ok(200, Distinct(found.value))
  {
    if query == [] {
      return Ok(200, CommonCategories);
    }
    var result, _, _ := gw.SearchBooks("subject:" + query, 0, 10, GB.DefaultRetries, now, outcomes);
    var found := CollectCategories(result.items.GetOr([]));
    if found.None? {
      return Error(500, "Error getting categories");
    }
    return Ok(200, found.value);
  }

  // ---------------------------------------------------------------
  // getCommonAuthors
  // ---------------------------------------------------------------

  datatype AuthorEntry = AuthorEntry(name: string, id: string)

  /** The authors the search results list, in order, with repetitions; None
      when a result has no volume information. */
  function AuthorsOf(items: seq<GB.Volume>): Option<seq<string>>
  {
    if items == [] then Some([])
    else
      var init := AuthorsOf(items[..|items| - 1]);
      var last := items[|items| - 1];
      if init.None? || last.volumeInfo.None? then None
      else Some(init.value + last.volumeInfo.value.authors.GetOr([]))
  }

  lemma {:induction false} AuthorsFailOn(items: seq<GB.Volume>, i: nat)
    requires i < |items| && items[i].volumeInfo.None?
    ensures AuthorsOf(items).None?
  {
    if i < |items| - 1 {
      AuthorsFailOn(items[..|items| - 1], i);
    }
  }

  /** `name.replace(/\s+/g, '-')`: every run of white space becomes one '-'. */
  function DashSpaces(s: string): (r: string)
    ensures NoSpace(r) && |r| <= |s|
    decreases |s|
  {
    if s == [] then []
    else if IsSpace(s[0]) then "-" + DashSpaces(DropLeadingSpaces(s[1..]))
    else [s[0]] + DashSpaces(s[1..])
  }

  /** The author's id: white-space runs dashed, then lower-cased. */
  function Slug(name: string): (r: string)
    ensures NoSpace(r) && |r| <= |name|
    ensures forall i :: 0 <= i < |r| ==> !('A' <= r[i] <= 'Z')
  {
    LowerKeepsSpaces(DashSpaces(name));
    Lower(DashSpaces(name))
  }

  /** A name without white space keeps its letters: its id is its lower-cased form. */
  lemma {:induction false} SlugOfSingleWord(name: string)
    requires NoSpace(name)
    ensures Slug(name) == Lower(name)
  {
    DashSpacesIdle(name);
  }

  lemma {:induction false} DashSpacesIdle(s: string)
    requires NoSpace(s)
    ensures DashSpaces(s) == s
  {
    if s != [] {
      DashSpacesIdle(s[1..]);
    }
  }

  /** A white-space run after a word becomes a single dash (`/\s+/g`). */
  lemma {:induction false} DashSpacesRun(w: string, run: string, rest: string)
    requires NoSpace(w) && run != [] && forall i :: 0 <= i < |run| ==> IsSpace(run[i])
    requires rest == [] || !IsSpace(rest[0])
    ensures DashSpaces(w + run + rest) == w + "-" + DashSpaces(rest)
    decreases |w|
  {
    if w == [] {
      assert w + run + rest == run + rest;
      assert (run + rest)[1..] == run[1..] + rest;
      DropLeadingRun(run[1..], rest);
    } else {
      assert (w + run + rest)[1..] == w[1..] + run + rest;
      DashSpacesRun(w[1..], run, rest);
    }
  }

  /** Orders names by how often they occur in `names`, most frequent first. */
  function ByCount(names: seq<string>): (string, string) -> bool
  {
    (a: string, b: string) => multiset(names)[a] >= multiset(names)[b]
  }

  /** The distinct authors, most frequent first, ties in order of first occurrence. */
  function RankAuthors(names: seq<string>): seq<string>
  {
    SortBy(Distinct(names), ByCount(names))
  }

  function AuthorEntries(ranked: seq<string>): (r: seq<AuthorEntry>)
    ensures |r| == |ranked|
    ensures forall i :: 0 <= i < |r| ==> r[i] == AuthorEntry(ranked[i], Slug(ranked[i]))
  {
    if ranked == [] then [] else [AuthorEntry(ranked[0], Slug(ranked[0]))] + AuthorEntries(ranked[1..])
  }

  /** The ranking lists every author exactly once, in non-increasing order of
      occurrences, and authors with equal counts in order of first occurrence. */
  lemma RankAuthorsFacts(names: seq<string>)
    ensures var r := RankAuthors(names);
      && NoDup(r)
      && (forall a :: a in r <==> a in names)
      && (forall i, j :: 0 <= i < j < |r| ==> multiset(names)[r[i]] >= multiset(names)[r[j]])
      && (forall i, j :: 0 <= i < j < |r| && multiset(names)[r[i]] == multiset(names)[r[j]] ==>
            r[i] in names && r[j] in names && FirstIndex(names, r[i]) < FirstIndex(names, r[j]))
  {
    var d := Distinct(names);
    var le := ByCount(names);
    var r := RankAuthors(names);
    DistinctElements(names);
    assert Total(le) && Transitive(le);
    SortBySorted(d, le);
    SortByStable(d, le);
    assert multiset(r) == multiset(d);
    forall a
      ensures a in r <==> a in d
    {
      assert a in r <==> a in multiset(r);
      assert a in d <==> a in multiset(d);
    }
    NoDupPermutation(d, r);
    forall i, j | 0 <= i < j < |r| && multiset(names)[r[i]] == multiset(names)[r[j]]
      ensures r[i] in names && r[j] in names && FirstIndex(names, r[i]) < FirstIndex(names, r[j])
    {
      assert le(r[i], r[j]) && le(r[j], r[i]);
      var p, q := FirstIndex(d, r[i]), FirstIndex(d, r[j]);
      DistinctFirstOccurrenceOrder(names, p, q);
    }
  }

  /** Returns the value under `k`, or 0. */
  function CountOf(counts: map<string, nat>, k: string): nat
  {
    if k in counts then counts[k] else 0
  }

  /** The inner loop of `getCommonAuthors`: counts each of `more` and
      appends the names not met before. */
  method Tally(order: seq<string>, counts: map<string, nat>, ghost before: seq<string>, more: seq<string>)
    returns (order': seq<string>, counts': map<string, nat>)
    requires order == Distinct(before)
    requires forall a :: CountOf(counts, a) == multiset(before)[a]
    ensures order' == Distinct(before + more)
    ensures forall a :: CountOf(counts', a) == multiset(before + more)[a]
  {
    order' := AppendNew(order, before, more);
    counts' := counts;
    var j := 0;
    assert before + more[..0] == before;
    while j < |more|
      invariant 0 <= j <= |more|
      invariant forall a :: CountOf(counts', a) == multiset(before + more[..j])[a]
    {
      var a := more[j];
      assert before + more[..j + 1] == (before + more[..j]) + [a];
      CountStep(counts', before + more[..j], a);
      counts' := counts'[a := CountOf(counts', a) + 1];
      j := j + 1;
    }
    assert more[..j] == more;
  }

  /** Counting one more occurrence of `a` keeps the counts equal to the
      multiplicities of the names seen. */
  lemma CountStep(counts: map<string, nat>, seen: seq<string>, a: string)
    requires forall b :: CountOf(counts, b) == multiset(seen)[b]
    ensures forall b :: CountOf(counts[a := CountOf(counts, a) + 1], b) == multiset(seen + [a])[b]
  {
    assert multiset(seen + [a]) == multiset(seen) + multiset{a};
  }

  /** The counting loop of `getCommonAuthors`: the authors in order of first
      occurrence with how often each occurs, or None when a result has no
      volume information. */
  method CountAuthors(items: seq<GB.Volume>) returns (r: Option<(seq<string>, map<string, nat>)>)
    ensures AuthorsOf(items).None? ==> r.None?
    ensures AuthorsOf(items).Some? ==> (
      && r.Some?
      && r.value.0 == Distinct(AuthorsOf(items).value)
      && forall a :: CountOf(r.value.1, a) == multiset(AuthorsOf(items).value)[a])
  {
    var order: seq<string> := [];
    var counts: map<string, nat> := map[];
    var i := 0;
    while i < |items|
      invariant 0 <= i <= |items|
      invariant AuthorsOf(items[..i]).Some?
      invariant order == Distinct(AuthorsOf(items[..i]).value)
      invariant forall a :: CountOf(counts, a) == multiset(AuthorsOf(items[..i]).value)[a]
    {
      assert items[..i + 1][..i] == items[..i];
      if items[i].volumeInfo.None? {
        AuthorsFailOn(items, i);
        return None;
      }
      var names := items[i].volumeInfo.value.authors.GetOr([]);
      order, counts := Tally(order, counts, AuthorsOf(items[..i]).value, names);
      i := i + 1;
    }
    assert items[..i] == items;
    return Some((order, counts));
  }

  /** `getCommonAuthors`: an empty query is refused with 400; otherwise the
      authors of the results of `inauthor:<query>` (first page of 20) are
      counted in a map filled in order of first occurrence, ranked by count
      and given their ids. */
  method GetCommonAuthors(gw: GB.Gateway, query: string, now: int, outcomes: seq<GB.Outcome<GB.SearchResponse>>)
    returns (res: Response<seq<AuthorEntry>>)
    requires gw.Valid() && |outcomes| > GB.DefaultRetries
    modifies gw
    ensures gw.Valid()
    ensures query == [] ==> res == Error(400, QueryRequired) && gw.cache == old(gw.cache)
    ensures query != [] ==>
      var run := GB.SearchSpec(old(gw.cache), GB.SearchKey("inauthor:" + query, 0, 20), now, outcomes, GB.DefaultRetries);
      var found := AuthorsOf(run.result.items.GetOr([]));
      && gw.cache == run.cache
      && res == if found.None? then Error(500, "Error searching authors")
                else Ok(200, AuthorEntries(RankAuthors(found.value)))
  {
    if query == [] {
      return Error(400, QueryRequired);
    }
    var result, _, _ := gw.SearchBooks("inauthor:" + query, 0, 20, GB.DefaultRetries, now, outcomes);
    var counted := CountAuthors(result.items.GetOr([]));
    if counted.None? {
      return Error(500, "Error searching authors");
    }
    var (order, counts) := counted.value;
    ghost var all := AuthorsOf(result.items.GetOr([])).value;
    var byCounts := (a: string, b: string) => CountOf(counts, a) >= CountOf(counts, b);
    SortByCongruent(order, byCounts, ByCount(all));
    var ranked := SortBy(order, byCounts);
    return Ok(200, AuthorEntries(ranked));
  }
}
