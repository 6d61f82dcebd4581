/** The preference handlers: each replaces one of the caller's like/dislike
    relations by the lists given, creating the category, author and
    language records it needs, and the author autocomplete. */
module PreferenceController {
  import opened Wrappers
  import opened Text
  import opened Seqs
  import opened Store

  // ---------------------------------------------------------------
  // updateTropePreferences
  // ---------------------------------------------------------------

  const TropePrefsDone := "Trope preferences updated successfully"
  const TropePrefsFailed := "Error updating trope preferences"

  /** The trope ids among `ids`. */
  function NatIds(ids: seq<int>): (r: set<nat>)
    ensures forall t: nat :: t in r <==> t in ids
  {
    set t: nat | t in ids
  }

  /** Every id names a stored trope. */
  predicate KnownTropes(ids: seq<int>, tropeCount: nat)
  {
    forall t :: t in ids ==> 0 <= t < tropeCount
  }

  /** The answer and the users table after replacing the caller's liked and
      disliked tropes; a missing list stands for the empty one. */
  function TropePrefsSpec(users: map<string, User>, tropeCount: nat, auth: Option<AuthUser>,
                          liked: Option<seq<int>>, disliked: Option<seq<int>>): (Response<string>, map<string, User>)
  {
    if auth.None? then (Error(401, NotAuthenticated), users)
    else
      match Ensured(users, auth.value)
      case None => (Error(500, TropePrefsFailed), users)
      case Some(us) =>
        if !KnownTropes(liked.GetOr([]) + disliked.GetOr([]), tropeCount) then (Error(500, TropePrefsFailed), us)
        else
          var u := us[auth.value.uid];
          (Ok(200, TropePrefsDone),
           us[auth.value.uid := u.(likedTropes := NatIds(liked.GetOr([])), dislikedTropes := NatIds(disliked.GetOr([])))])
  }

  /** On success the caller's liked and disliked tropes are exactly the given
      ids, whatever they were before; an unknown id fails after the user is
      created; nobody else changes. */
  lemma TropePrefsFacts(users: map<string, User>, tropeCount: nat, auth: Option<AuthUser>,
                        liked: Option<seq<int>>, disliked: Option<seq<int>>)
    ensures var (res, after) := TropePrefsSpec(users, tropeCount, auth, liked, disliked);
      && (auth.None? ==> res == Error(401, NotAuthenticated) && after == users)
      && (res.Ok? ==>
            && auth.Some? && after.Keys == users.Keys + {auth.value.uid}
            && (forall t: int :: t in after[auth.value.uid].likedTropes <==> t in liked.GetOr([]))
            && (forall t: int :: t in after[auth.value.uid].dislikedTropes <==> t in disliked.GetOr([]))
            && after[auth.value.uid].tropes == Ensured(users, auth.value).value[auth.value.uid].tropes)
      && (auth.Some? && Ensured(users, auth.value).Some? ==>
            (res.Ok? <==> KnownTropes(liked.GetOr([]) + disliked.GetOr([]), tropeCount)))
      && (forall v :: v in users && (auth.None? || v != auth.value.uid) ==> v in after && after[v] == users[v])
  {
    var a, b := liked.GetOr([]), disliked.GetOr([]);
    if KnownTropes(a + b, tropeCount) {
      KnownParts(a, b, tropeCount);
    }
  }

  /** Both lists of a known concatenation are known. */
  lemma KnownParts(a: seq<int>, b: seq<int>, tropeCount: nat)
    requires KnownTropes(a + b, tropeCount)
    ensures KnownTropes(a, tropeCount) && KnownTropes(b, tropeCount)
  {
    forall t | t in a ensures 0 <= t < tropeCount {
      assert t in a + b;
    }
    forall t | t in b ensures 0 <= t < tropeCount {
      assert t in a + b;
    }
  }

  method UpdateTropePreferences(db: Db, auth: Option<AuthUser>, liked: Option<seq<int>>, disliked: Option<seq<int>>)
    returns (res: Response<string>)
    requires db.Valid()
    modifies db`users
    ensures db.Valid()
    ensures (res, db.users) == TropePrefsSpec(old(db.users), |db.tropes|, auth, liked, disliked)
  {
    if auth.None? {
      return Error(401, NotAuthenticated);
    }
    var ok := db.EnsureUser(auth.value);
    if !ok {
      return Error(500, TropePrefsFailed);
    }
    var likedIds, dislikedIds := liked.GetOr([]), disliked.GetOr([]);
    var ids := likedIds + dislikedIds;
    var known := CheckTropeIds(ids, |db.tropes|);
    if !known {
      return Error(500, TropePrefsFailed);
    }
    SetTropePrefs(db, auth.value.uid, likedIds, dislikedIds);
    return Ok(200, TropePrefsDone);
  }

  /** Whether every id to connect names a stored trope; the first unknown
      one makes the update throw. */
  method CheckTropeIds(ids: seq<int>, tropeCount: nat) returns (known: bool)
    ensures known == KnownTropes(ids, tropeCount)
  {
    var i := 0;
    while i < |ids|
      invariant 0 <= i <= |ids|
      invariant KnownTropes(ids[..i], tropeCount)
    {
      if !(0 <= ids[i] < tropeCount) {
        assert ids[i] in ids;
        return false;
      }
      assert ids[..i + 1] == ids[..i] + [ids[i]];
      i := i + 1;
    }
    assert ids[..i] == ids;
    return true;
  }

  /** The user update of `updateTropePreferences`: both relations cleared
      and connected to the given ids. */
  method SetTropePrefs(db: Db, uid: string, likedIds: seq<int>, dislikedIds: seq<int>)
    requires db.Valid() && uid in db.users && KnownTropes(likedIds + dislikedIds, |db.tropes|)
    modifies db`users
    ensures db.Valid()
    ensures db.users == old(db.users)[uid := old(db.users)[uid].(likedTropes := NatIds(likedIds), dislikedTropes := NatIds(dislikedIds))]
  {
    var u := db.users[uid];
    var u' := u.(likedTropes := NatIds(likedIds), dislikedTropes := NatIds(dislikedIds));
    assert UserLinksResolve(u, db.users, db.books, |db.tropes|, db.categories, db.authors, db.languages);
    assert forall t :: t in u'.tropes + u'.likedTropes + u'.dislikedTropes ==> t < |db.tropes| by {
      forall t | t in u'.tropes + u'.likedTropes + u'.dislikedTropes
        ensures t < |db.tropes|
      {
        if t in u'.likedTropes {
          assert t in likedIds + dislikedIds;
        } else if t in u'.dislikedTropes {
          assert t in likedIds + dislikedIds;
        } else {
          assert t in u.tropes + u.likedTropes + u.dislikedTropes;
        }
      }
    }
    db.PutUser(uid, u');
  }

  // ---------------------------------------------------------------
  // updateCategoryPreferences and updateAuthorPreferences
  // ---------------------------------------------------------------

  const CategoryPrefsDone := "Category preferences updated successfully"
  const CategoryPrefsFailed := "Error updating category preferences"
  const AuthorPrefsDone := "Author preferences updated successfully"
  const AuthorPrefsFailed := "Error updating author preferences"

  /** The answer and the users table once every named record exists: the
      caller's pair of relations, chosen by `authors`, is replaced by the
      given names; a caller without a record makes the update fail. */
  function NamePrefsSpec(users: map<string, User>, authors: bool, auth: AuthUser,
                         liked: seq<string>, disliked: seq<string>): (Response<string>, map<string, User>)
  {
    if auth.uid !in users then (Error(500, if authors then AuthorPrefsFailed else CategoryPrefsFailed), users)
    else
      var u := users[auth.uid];
      var u' := if authors then u.(likedAuthors := Elems(liked), dislikedAuthors := Elems(disliked))
                else u.(likedCategories := Elems(liked), dislikedCategories := Elems(disliked));
      (Ok(200, if authors then AuthorPrefsDone else CategoryPrefsDone), users[auth.uid := u'])
  }

  /** On success the chosen pair of relations holds exactly the given names,
      the other relations of the caller are untouched and nobody else changes. */
  lemma NamePrefsFacts(users: map<string, User>, authors: bool, auth: AuthUser, liked: seq<string>, disliked: seq<string>)
    ensures var (res, after) := NamePrefsSpec(users, authors, auth, liked, disliked);
      && (res.Ok? <==> auth.uid in users)
      && after.Keys == users.Keys
      && (res.Ok? && authors ==>
            && (forall a :: a in after[auth.uid].likedAuthors <==> a in liked)
            && (forall a :: a in after[auth.uid].dislikedAuthors <==> a in disliked)
            && after[auth.uid].likedCategories == users[auth.uid].likedCategories
            && after[auth.uid].dislikedCategories == users[auth.uid].dislikedCategories)
      && (res.Ok? && !authors ==>
            && (forall c :: c in after[auth.uid].likedCategories <==> c in liked)
            && (forall c :: c in after[auth.uid].dislikedCategories <==> c in disliked)
            && after[auth.uid].likedAuthors == users[auth.uid].likedAuthors
            && after[auth.uid].dislikedAuthors == users[auth.uid].dislikedAuthors)
      && (forall v :: v in users && v != auth.uid ==> after[v] == users[v])
  {
  }

  /** `prisma.category.upsert` with an empty update: creates the record when absent. */
  method UpsertCategory(db: Db, name: string)
    requires db.Valid()
    modifies db`categories
    ensures db.Valid()
    ensures db.categories == old(db.categories) + {name}
  {
    db.categories := db.categories + {name};
    assert forall u :: u in db.users ==>
      UserLinksResolve(db.users[u], db.users, db.books, |db.tropes|, db.categories, db.authors, db.languages) by {
      forall u | u in db.users
        ensures UserLinksResolve(db.users[u], db.users, db.books, |db.tropes|, db.categories, db.authors, db.languages)
      {
        assert UserLinksResolve(db.users[u], db.users, db.books, |db.tropes|, old(db.categories), db.authors, db.languages);
      }
    }
  }

  method UpsertAuthor(db: Db, name: string)
    requires db.Valid()
    modifies db`authors
    ensures db.Valid()
    ensures db.authors == old(db.authors) + {name}
  {
    db.authors := db.authors + {name};
    assert forall u :: u in db.users ==>
      UserLinksResolve(db.users[u], db.users, db.books, |db.tropes|, db.categories, db.authors, db.languages) by {
      forall u | u in db.users
        ensures UserLinksResolve(db.users[u], db.users, db.books, |db.tropes|, db.categories, db.authors, db.languages)
      {
        assert UserLinksResolve(db.users[u], db.users, db.books, |db.tropes|, db.categories, old(db.authors), db.languages);
      }
    }
  }

  /** `updateCategoryPreferences`: upserts every liked and disliked name into
      the category table, then replaces the caller's category relations. */
  method UpdateCategoryPreferences(db: Db, auth: Option<AuthUser>, liked: Option<seq<string>>, disliked: Option<seq<string>>)
    returns (res: Response<string>)
    requires db.Valid()
    modifies db`users, db`categories
    ensures db.Valid()
    ensures auth.None? ==> res == Error(401, NotAuthenticated) && db.users == old(db.users) && db.categories == old(db.categories)
    ensures auth.Some? ==>
      && db.categories == old(db.categories) + Elems(liked.GetOr([]) + disliked.GetOr([]))
      && (res, db.users) == NamePrefsSpec(old(db.users), false, auth.value, liked.GetOr([]), disliked.GetOr([]))
  {
    if auth.None? {
      return Error(401, NotAuthenticated);
    }
    var likedNames, dislikedNames := liked.GetOr([]), disliked.GetOr([]);
    var names := likedNames + dislikedNames;
    var i := 0;
    while i < |names|
      invariant 0 <= i <= |names|
      invariant db.Valid() && db.users == old(db.users)
      invariant db.categories == old(db.categories) + Elems(names[..i])
    {
      UpsertCategory(db, names[i]);
      assert names[..i + 1] == names[..i] + [names[i]];
      i := i + 1;
    }
    assert names[..i] == names;
    if auth.value.uid !in db.users {
      return Error(500, CategoryPrefsFailed);
    }
    var u := db.users[auth.value.uid];
    assert UserLinksResolve(u, db.users, db.books, |db.tropes|, db.categories, db.authors, db.languages);
    db.PutUser(auth.value.uid, u.(likedCategories := Elems(likedNames), dislikedCategories := Elems(dislikedNames)));
    return Ok(200, CategoryPrefsDone);
  }

  /** `updateAuthorPreferences`: the same upsert-then-replace on the author table. */
  method UpdateAuthorPreferences(db: Db, auth: Option<AuthUser>, liked: Option<seq<string>>, disliked: Option<seq<string>>)
    returns (res: Response<string>)
    requires db.Valid()
    modifies db`users, db`authors
    ensures db.Valid()
    ensures auth.None? ==> res == Error(401, NotAuthenticated) && db.users == old(db.users) && db.authors == old(db.authors)
    ensures auth.Some? ==>
      && db.authors == old(db.authors) + Elems(liked.GetOr([]) + disliked.GetOr([]))
      && (res, db.users) == NamePrefsSpec(old(db.users), true, auth.value, liked.GetOr([]), disliked.GetOr([]))
  {
    if auth.None? {
      return Error(401, NotAuthenticated);
    }
    var likedNames, dislikedNames := liked.GetOr([]), disliked.GetOr([]);
    var names := likedNames + dislikedNames;
    var i := 0;
    while i < |names|
      invariant 0 <= i <= |names|
      invariant db.Valid() && db.users == old(db.users)
      invariant db.authors == old(db.authors) + Elems(names[..i])
    {
      UpsertAuthor(db, names[i]);
      assert names[..i + 1] == names[..i] + [names[i]];
      i := i + 1;
    }
    assert names[..i] == names;
    if auth.value.uid !in db.users {
      return Error(500, AuthorPrefsFailed);
    }
    var u := db.users[auth.value.uid];
    assert UserLinksResolve(u, db.users, db.books, |db.tropes|, db.categories, db.authors, db.languages);
    db.PutUser(auth.value.uid, u.(likedAuthors := Elems(likedNames), dislikedAuthors := Elems(dislikedNames)));
    return Ok(200, AuthorPrefsDone);
  }

  // ---------------------------------------------------------------
  // updateLanguagePreferences
  // ---------------------------------------------------------------

  const LanguagePrefsDone := "Language preferences updated successfully"
  const LanguagePrefsFailed := "Error updating language preferences"

  /** The display name a new language record gets. */
  function LanguageName(code: string): (r: string)
    ensures code == "pt" ==> r == "Português"
    ensures code == "en" ==> r == "Inglês"
    ensures code != "pt" && code != "en" ==> r == code
  {
    if code == "pt" then "Português" else if code == "en" then "Inglês" else code
  }

  /** The language table after upserting `codes` with an empty update:
      missing codes are added with their display name, existing rows stay. */
  function WithLanguages(languages: map<string, string>, codes: seq<string>): (r: map<string, string>)
    ensures r.Keys == languages.Keys + Elems(codes)
    ensures forall c :: c in languages ==> r[c] == languages[c]
    ensures forall c :: c in r && c !in languages ==> r[c] == LanguageName(c)
    decreases |codes|
  {
    if codes == [] then languages
    else
      var last := codes[|codes| - 1];
      var init := WithLanguages(languages, codes[..|codes| - 1]);
      assert codes == codes[..|codes| - 1] + [last];
      if last in init then init else init[last := LanguageName(last)]
  }

  /** `updateLanguagePreferences`: upserts every code, then replaces the
      caller's languages; a caller without a record makes the update fail. */
  method UpdateLanguagePreferences(db: Db, auth: Option<AuthUser>, codes: Option<seq<string>>)
    returns (res: Response<string>)
    requires db.Valid()
    modifies db`users, db`languages
    ensures db.Valid()
    ensures auth.None? ==> res == Error(401, NotAuthenticated) && db.users == old(db.users) && db.languages == old(db.languages)
    ensures auth.Some? ==> db.languages == WithLanguages(old(db.languages), codes.GetOr([]))
    ensures auth.Some? && auth.value.uid !in old(db.users) ==> res == Error(500, LanguagePrefsFailed) && db.users == old(db.users)
    ensures auth.Some? && auth.value.uid in old(db.users) ==>
      var u := old(db.users)[auth.value.uid];
      res == Ok(200, LanguagePrefsDone) && db.users == old(db.users)[auth.value.uid := u.(languages := Elems(codes.GetOr([])))]
  {
    if auth.None? {
      return Error(401, NotAuthenticated);
    }
    var cs := codes.GetOr([]);
    UpsertLanguages(db, cs);
    if auth.value.uid !in db.users {
      return Error(500, LanguagePrefsFailed);
    }
    var u := db.users[auth.value.uid];
    assert UserLinksResolve(u, db.users, db.books, |db.tropes|, db.categories, db.authors, db.languages);
    db.PutUser(auth.value.uid, u.(languages := Elems(cs)));
    return Ok(200, LanguagePrefsDone);
  }

  /** The upsert loop of `updateLanguagePreferences`. */
  method UpsertLanguages(db: Db, cs: seq<string>)
    requires db.Valid()
    modifies db`languages
    ensures db.Valid()
    ensures db.languages == WithLanguages(old(db.languages), cs)
  {
    var i := 0;
    while i < |cs|
      invariant 0 <= i <= |cs|
      invariant db.Valid()
      invariant db.languages == WithLanguages(old(db.languages), cs[..i])
    {
      assert cs[..i + 1][..i] == cs[..i];
      UpsertLanguage(db, cs[i]);
      i := i + 1;
    }
    assert cs[..i] == cs;
  }

  method UpsertLanguage(db: Db, code: string)
    requires db.Valid()
    modifies db`languages
    ensures db.Valid()
    ensures db.languages == if code in old(db.languages) then old(db.languages) else old(db.languages)[code := LanguageName(code)]
  {
    if code !in db.languages {
      db.languages := db.languages[code := LanguageName(code)];
      assert forall u :: u in db.users ==>
        UserLinksResolve(db.users[u], db.users, db.books, |db.tropes|, db.categories, db.authors, db.languages) by {
        forall u | u in db.users
          ensures UserLinksResolve(db.users[u], db.users, db.books, |db.tropes|, db.categories, db.authors, db.languages)
        {
          assert UserLinksResolve(db.users[u], db.users, db.books, |db.tropes|, db.categories, db.authors, old(db.languages));
        }
      }
    }
  }

  // ---------------------------------------------------------------
  // searchAuthors
  // ---------------------------------------------------------------

  /** `searchAuthors`: at most ten authors whose names contain the query,
      ignoring case, the first ones in name order. */
  method SearchAuthors(db: Db, query: string) returns (res: Response<seq<string>>)
    ensures query == [] ==> res == Error(400, QueryRequired)
    ensures query != [] ==> res.Ok? && res.status == 200
    ensures res.Ok? ==>
      var r := res.value;
      && |r| <= 10 && NoDup(r)
      && (forall i :: 0 <= i < |r| ==> r[i] in db.authors && IncludesIgnoringCase(r[i], query))
      && (forall i, j :: 0 <= i < j < |r| ==> LexLe(r[i], r[j]))
      && (forall a :: a in db.authors && IncludesIgnoringCase(a, query) && a !in r ==>
            |r| == 10 && forall i :: 0 <= i < |r| ==> LexLe(r[i], a))
  {
    if query == [] {
      return Error(400, QueryRequired);
    }
    var left := db.authors;
    var matches: seq<string> := [];
    while left != {}
      invariant left <= db.authors && NoDup(matches)
      invariant forall a :: a in matches <==> a in db.authors - left && IncludesIgnoringCase(a, query)
      decreases left
    {
      var a :| a in left;
      if IncludesIgnoringCase(a, query) {
        matches := matches + [a];
      }
      left := left - {a};
    }
    var sorted := SortBy(matches, LexLe);
    assert Total(LexLe) by {
      forall a, b ensures LexLe(a, b) || LexLe(b, a) { LexLeTotal(a, b); }
    }
    assert Transitive(LexLe) by {
      forall a, b, c | LexLe(a, b) && LexLe(b, c) ensures LexLe(a, c) { LexLeTransitive(a, b, c); }
    }
    SortBySorted(matches, LexLe);
    var r := Take(sorted, 10);
    TakeSortedFacts(matches, sorted, r);
    assert forall x :: x in r ==> x in db.authors && IncludesIgnoringCase(x, query);
    return Ok(200, r);
  }

  /** The first ten of a sorted permutation of a duplicate-free sequence: no
      duplicates, and everything left out comes after everything kept. */
  lemma TakeSortedFacts(matches: seq<string>, sorted: seq<string>, r: seq<string>)
    requires NoDup(matches) && multiset(sorted) == multiset(matches)
    requires Sorted(sorted, LexLe) && r == Take(sorted, 10)
    ensures NoDup(r) && |r| <= 10
    ensures forall x :: x in r ==> x in matches
    ensures forall a :: a in matches && a !in r ==> |r| == 10 && forall i :: 0 <= i < |r| ==> LexLe(r[i], a)
  {
    assert forall x :: x in sorted <==> x in matches by {
      forall x ensures x in sorted <==> x in matches {
        assert x in sorted <==> x in multiset(sorted);
        assert x in matches <==> x in multiset(matches);
      }
    }
    NoDupPermutation(matches, sorted);
    forall a | a in matches && a !in r
      ensures |r| == 10 && forall i :: 0 <= i < |r| ==> LexLe(r[i], a)
    {
      var k :| 0 <= k < |sorted| && sorted[k] == a;
      assert k >= |r|;
    }
  }
}
