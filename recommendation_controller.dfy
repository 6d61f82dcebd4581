/** The recommendation handlers: the automated list (preferences and
    ratings turned into a prompt, the model's answer parsed as JSON and each
    entry enriched by a catalog search), the chat assistant and the
    per-user setting that switches the automated list on and off. The
    generative model and `JSON.parse` are parameters of the handlers. */
module RecommendationController {
  import opened Wrappers
  import opened Text
  import opened Seqs
  import GB = GoogleBooks
  import opened Store

  const UserNotAuthenticated := "User not authenticated"
  const UserNotFound := "User not found"
  const GenerateFailed := "Failed to generate recommendations"
  /** The most recent ratings a prompt lists. */
  const HistoryLimit := 20

  // ---------------------------------------------------------------
  // What the prompts are built from
  // ---------------------------------------------------------------

  /** The names the prompts list, one list per relation of the user. */
  datatype Lists = Lists(
    likedTropes: seq<string>,
    dislikedTropes: seq<string>,
    likedCategories: seq<string>,
    dislikedCategories: seq<string>,
    likedAuthors: seq<string>,
    dislikedAuthors: seq<string>,
    languages: seq<string>)

  /** The order in which the store returned the rows of each relation. */
  datatype Orders = Orders(
    likedTropes: seq<nat>,
    dislikedTropes: seq<nat>,
    likedCategories: seq<string>,
    dislikedCategories: seq<string>,
    likedAuthors: seq<string>,
    dislikedAuthors: seq<string>,
    languages: seq<string>)

  /** One rated book of the reading history. */
  datatype HistoryEntry = HistoryEntry(title: string, author: string, rating: int)

  /** A book of the reading list, as the chat prompt names it. */
  datatype ListedBook = ListedBook(title: string, author: string)

  /** `o` lists the elements of `s`, each once. */
  ghost predicate Enumerates<T(!new)>(o: seq<T>, s: set<T>)
  {
    NoDup(o) && forall x :: x in o <==> x in s
  }

  /** `o` is an order of every preference relation of `u`. */
  ghost predicate OrdersOf(o: Orders, u: User)
  {
    && Enumerates(o.likedTropes, u.likedTropes) && Enumerates(o.dislikedTropes, u.dislikedTropes)
    && Enumerates(o.likedCategories, u.likedCategories) && Enumerates(o.dislikedCategories, u.dislikedCategories)
    && Enumerates(o.likedAuthors, u.likedAuthors) && Enumerates(o.dislikedAuthors, u.dislikedAuthors)
    && Enumerates(o.languages, u.languages)
  }

  function TropeNames(tropes: seq<Trope>, ids: seq<nat>): seq<string>
    requires forall k :: 0 <= k < |ids| ==> ids[k] < |tropes|
  {
    seq(|ids|, k requires 0 <= k < |ids| => tropes[ids[k]].name)
  }

  function LanguageNames(languages: map<string, string>, codes: seq<string>): seq<string>
    requires forall k :: 0 <= k < |codes| ==> codes[k] in languages
  {
    seq(|codes|, k requires 0 <= k < |codes| => languages[codes[k]])
  }

  /** The names of the rows `o` lists: a trope by its name, a language by
      the name stored for its code; categories and authors are keyed by name. */
  function NamesOf(o: Orders, tropes: seq<Trope>, languages: map<string, string>): Lists
    requires forall k :: 0 <= k < |o.likedTropes| ==> o.likedTropes[k] < |tropes|
    requires forall k :: 0 <= k < |o.dislikedTropes| ==> o.dislikedTropes[k] < |tropes|
    requires forall k :: 0 <= k < |o.languages| ==> o.languages[k] in languages
  {
    Lists(TropeNames(tropes, o.likedTropes), TropeNames(tropes, o.dislikedTropes),
          o.likedCategories, o.dislikedCategories, o.likedAuthors, o.dislikedAuthors,
          LanguageNames(languages, o.languages))
  }

  /** The orders of a stored user's relations resolve against the store. */
  lemma OrdersResolve(db: Db, uid: string, o: Orders)
    requires db.Valid() && uid in db.users && OrdersOf(o, db.users[uid])
    ensures forall k :: 0 <= k < |o.likedTropes| ==> o.likedTropes[k] < |db.tropes|
    ensures forall k :: 0 <= k < |o.dislikedTropes| ==> o.dislikedTropes[k] < |db.tropes|
    ensures forall k :: 0 <= k < |o.languages| ==> o.languages[k] in db.languages
  {
    var u := db.users[uid];
    assert UserLinksResolve(u, db.users, db.books, |db.tropes|, db.categories, db.authors, db.languages);
    forall k | 0 <= k < |o.likedTropes| ensures o.likedTropes[k] < |db.tropes| {
      assert o.likedTropes[k] in u.tropes + u.likedTropes + u.dislikedTropes;
    }
    forall k | 0 <= k < |o.dislikedTropes| ensures o.dislikedTropes[k] < |db.tropes| {
      assert o.dislikedTropes[k] in u.tropes + u.likedTropes + u.dislikedTropes;
    }
    forall k | 0 <= k < |o.languages| ensures o.languages[k] in db.languages {
      assert o.languages[k] in u.languages;
    }
  }

  /** Reads the preference relations of a stored user. */
  method GatherLists(db: Db, uid: string) returns (o: Orders, names: Lists)
    requires db.Valid() && uid in db.users
    ensures OrdersOf(o, db.users[uid])
    ensures forall k :: 0 <= k < |o.likedTropes| ==> o.likedTropes[k] < |db.tropes|
    ensures forall k :: 0 <= k < |o.dislikedTropes| ==> o.dislikedTropes[k] < |db.tropes|
    ensures forall k :: 0 <= k < |o.languages| ==> o.languages[k] in db.languages
    ensures names == NamesOf(o, db.tropes, db.languages)
  {
    var u := db.users[uid];
    var lt := Enumerate(u.likedTropes);
    var dt := Enumerate(u.dislikedTropes);
    var lc := Enumerate(u.likedCategories);
    var dc := Enumerate(u.dislikedCategories);
    var la := Enumerate(u.likedAuthors);
    var da := Enumerate(u.dislikedAuthors);
    var lg := Enumerate(u.languages);
    o := Orders(lt, dt, lc, dc, la, da, lg);
    OrdersResolve(db, uid, o);
    names := NamesOf(o, db.tropes, db.languages);
  }

  /** Some like/dislike relation of `u` is non-empty; languages do not count. */
  predicate HasPreferences(u: User)
  {
    || u.likedTropes != {} || u.dislikedTropes != {}
    || u.likedCategories != {} || u.dislikedCategories != {}
    || u.likedAuthors != {} || u.dislikedAuthors != {}
  }

  // ---------------------------------------------------------------
  // The reading history: the 20 most recent ratings
  // ---------------------------------------------------------------

  /** The positions of the ratings by `uid`, in store order. */
  function RatingsBy(ratings: seq<Rating>, uid: string): (r: seq<nat>)
    ensures forall k :: 0 <= k < |r| ==> r[k] < |ratings| && ratings[r[k]].userId == uid
    ensures forall i :: 0 <= i < |ratings| && ratings[i].userId == uid ==> i in r
    ensures forall k, l :: 0 <= k < l < |r| ==> r[k] < r[l]
  {
    Positions(ratings, (x: Rating) => x.userId == uid)
  }

  function RatedAt(ratings: seq<Rating>, i: nat): int
  {
    if i < |ratings| then ratings[i].createdAt else 0
  }

  /** `orderBy: { createdAt: 'desc' }` on rating positions. */
  function NewestRating(ratings: seq<Rating>): (nat, nat) -> bool
  {
    (i: nat, j: nat) => RatedAt(ratings, i) >= RatedAt(ratings, j)
  }

  /** The ratings the prompts list: the caller's, newest first, at most 20. */
  function RecentRatings(ratings: seq<Rating>, uid: string): seq<nat>
  {
    Take(SortBy(RatingsBy(ratings, uid), NewestRating(ratings)), HistoryLimit)
  }

  /** The caller's ratings sorted newest first hold each of them once. */
  lemma SortedRatings(ratings: seq<Rating>, uid: string)
    ensures var sorted := SortBy(RatingsBy(ratings, uid), NewestRating(ratings));
      && NoDup(sorted)
      && (forall x :: x in sorted <==> x in RatingsBy(ratings, uid))
      && Sorted(sorted, NewestRating(ratings))
  {
    var owned := RatingsBy(ratings, uid);
    var le := NewestRating(ratings);
    var sorted := SortBy(owned, le);
    assert NoDup(owned) by {
      forall k, l | 0 <= k < l < |owned| ensures owned[k] != owned[l] { }
    }
    NoDupPermutation(owned, sorted);
    forall x ensures x in sorted <==> x in owned {
      assert x in sorted <==> x in multiset(sorted);
      assert x in owned <==> x in multiset(owned);
    }
    assert Total(le) && Transitive(le);
    SortBySorted(owned, le);
  }

  /** At most 20 of the caller's ratings, each once. */
  lemma RecentRatingsContents(ratings: seq<Rating>, uid: string)
    ensures var r := RecentRatings(ratings, uid);
      && |r| <= HistoryLimit
      && NoDup(r)
      && (forall k :: 0 <= k < |r| ==> r[k] < |ratings| && ratings[r[k]].userId == uid)
  {
    SortedRatings(ratings, uid);
    var sorted := SortBy(RatingsBy(ratings, uid), NewestRating(ratings));
    var r := RecentRatings(ratings, uid);
    assert r == sorted[..|r|];
    forall k | 0 <= k < |r| ensures r[k] < |ratings| && ratings[r[k]].userId == uid {
      assert r[k] == sorted[k];
      assert sorted[k] in RatingsBy(ratings, uid);
    }
  }

  /** A caller with at most 20 ratings has all of them listed. */
  lemma RecentRatingsAll(ratings: seq<Rating>, uid: string)
    requires |RatingsBy(ratings, uid)| <= HistoryLimit
    ensures forall i :: 0 <= i < |ratings| && ratings[i].userId == uid ==> i in RecentRatings(ratings, uid)
  {
    SortedRatings(ratings, uid);
  }

  /** The listed ratings are newest first, and none left out is newer than
      one listed. */
  lemma RecentRatingsOrder(ratings: seq<Rating>, uid: string)
    ensures var r := RecentRatings(ratings, uid);
      && (forall k, l :: 0 <= k < l < |r| ==> RatedAt(ratings, r[k]) >= RatedAt(ratings, r[l]))
      && (forall i, k :: 0 <= i < |ratings| && ratings[i].userId == uid && i !in r && 0 <= k < |r| ==>
            RatedAt(ratings, r[k]) >= ratings[i].createdAt)
  {
    SortedRatings(ratings, uid);
    var sorted := SortBy(RatingsBy(ratings, uid), NewestRating(ratings));
    var r := RecentRatings(ratings, uid);
    forall k, l | 0 <= k < l < |r| ensures RatedAt(ratings, r[k]) >= RatedAt(ratings, r[l]) {
      assert NewestRating(ratings)(sorted[k], sorted[l]);
    }
    forall i, k | 0 <= i < |ratings| && ratings[i].userId == uid && i !in r && 0 <= k < |r|
      ensures RatedAt(ratings, r[k]) >= ratings[i].createdAt
    {
      assert i in sorted;
      var j :| 0 <= j < |sorted| && sorted[j] == i;
      assert NewestRating(ratings)(sorted[k], sorted[j]);
    }
  }

  /** The history line data of the listed ratings, with their books. */
  function HistoryOf(ratings: seq<Rating>, books: map<string, GB.BookData>, picks: seq<nat>): seq<HistoryEntry>
    requires forall k :: 0 <= k < |picks| ==> picks[k] < |ratings| && ratings[picks[k]].bookId in books
  {
    seq(|picks|, k requires 0 <= k < |picks| =>
      HistoryEntry(books[ratings[picks[k]].bookId].title, books[ratings[picks[k]].bookId].author,
                   ratings[picks[k]].rating))
  }

  /** Every listed rating's book is stored. */
  lemma RecentRatingsResolve(db: Db, uid: string)
    requires db.Valid()
    ensures var picks := RecentRatings(db.ratings, uid);
      forall k :: 0 <= k < |picks| ==> picks[k] < |db.ratings| && db.ratings[picks[k]].bookId in db.books
  {
    RecentRatingsContents(db.ratings, uid);
  }

  // ---------------------------------------------------------------
  // The automated prompt
  // ---------------------------------------------------------------

  const AutoIntro := "Based on the following user preferences and reading history, recommend 5 books:\n\n"
  const AutoLanguagesDefault := "The user hasn't specified language preferences. Please recommend books in Portuguese or English.\n\n"
  const AutoOutro := "\nPlease recommend books that match the user's preferences. For each book, provide the title, author, and a brief description. Format your response as a JSON array with objects containing title, author, and description properties."

  function LanguagesSentence(languages: seq<string>): string
  {
    "The user reads books in the following languages: " + Join(languages, ", ")
  }

  /** The language sentence of the automated prompt. */
  function AutoLanguageLine(languages: seq<string>): string
  {
    if languages != [] then LanguagesSentence(languages) + ". ONLY recommend books in these languages.\n\n"
    else AutoLanguagesDefault
  }

  /** A labelled list of names, present only when there is a name. */
  function Line(caption: string, names: seq<string>): string
  {
    if names == [] then [] else caption + Join(names, ", ") + "\n"
  }

  /** A line is present exactly when its list is not empty, and then it
      starts with its caption and ends the line. */
  lemma LineFacts(caption: string, names: seq<string>)
    ensures Line(caption, names) == [] <==> names == []
    ensures names != [] ==> IsPrefix(caption, Line(caption, names))
    ensures names != [] ==> Line(caption, names)[|Line(caption, names)| - 1] == '\n'
  {
    if names != [] {
      var l := Line(caption, names);
      assert l[..|caption|] == caption;
    }
  }

  /** The six like/dislike lines, in their fixed order. */
  function PreferenceLines(l: Lists): string
  {
    Line("Tropes the user likes: ", l.likedTropes) + Line("Tropes the user dislikes: ", l.dislikedTropes)
    + Line("Categories the user likes: ", l.likedCategories) + Line("Categories the user dislikes: ", l.dislikedCategories)
    + Line("Authors the user likes: ", l.likedAuthors) + Line("Authors the user dislikes: ", l.dislikedAuthors)
  }

  /** Without any like or dislike there is no preference line at all. */
  lemma NoPreferenceLines(l: Lists)
    requires l.likedTropes == [] && l.dislikedTropes == [] && l.likedCategories == []
    requires l.dislikedCategories == [] && l.likedAuthors == [] && l.dislikedAuthors == []
    ensures PreferenceLines(l) == []
  {
  }

  function HistoryLine(e: HistoryEntry): string
  {
    "- \"" + e.title + "\" by " + e.author + " - Rated " + IntToString(e.rating) + "/5\n"
  }

  /** One line per rated book, in order. */
  function HistoryLines(h: seq<HistoryEntry>): string
  {
    if h == [] then [] else HistoryLine(h[0]) + HistoryLines(h[1..])
  }

  lemma {:induction false} HistoryLinesAppend(a: seq<HistoryEntry>, b: seq<HistoryEntry>)
    ensures HistoryLines(a + b) == HistoryLines(a) + HistoryLines(b)
  {
    if a == [] {
      assert a + b == b;
    } else {
      assert (a + b)[0] == a[0];
      assert (a + b)[1..] == a[1..] + b;
      HistoryLinesAppend(a[1..], b);
      AppendAssoc(HistoryLine(a[0]), HistoryLines(a[1..]), HistoryLines(b));
    }
  }

  lemma HistoryLinesSplit(h: seq<HistoryEntry>, a: seq<HistoryEntry>, b: seq<HistoryEntry>)
    requires a + b == h
    ensures HistoryLines(h) == HistoryLines(a) + HistoryLines(b)
  {
    HistoryLinesAppend(a, b);
  }

  /** One more rating adds its line at the end. */
  lemma HistoryLinesSnoc(h: seq<HistoryEntry>, e: HistoryEntry)
    ensures HistoryLines(h + [e]) == HistoryLines(h) + HistoryLine(e)
  {
    HistoryLinesAppend(h, [e]);
    assert [e][1..] == [];
  }

  /** The k-th rating's line comes right after the lines of the ratings before it. */
  lemma HistoryEntryAt(h: seq<HistoryEntry>, k: nat)
    requires k < |h|
    ensures HistoryLines(h) == HistoryLines(h[..k]) + HistoryLine(h[k]) + HistoryLines(h[k + 1..])
  {
    SplitAround(h, k);
    HistoryLinesSplit(h, h[..k] + [h[k]], h[k + 1..]);
    HistoryLinesSnoc(h[..k], h[k]);
  }

  const AutoHistoryHeader := "\nBooks the user has rated:\n"

  /** The fixed request, the language sentence and the like/dislike lines. */
  function AutoHead(l: Lists): string
  {
    AutoIntro + AutoLanguageLine(l.languages) + PreferenceLines(l)
  }

  /** The prompt of `getAutomatedRecommendations`; the rated books come
      under their header only when there is one. */
  function AutoPrompt(l: Lists, h: seq<HistoryEntry>): string
  {
    (if h == [] then AutoHead(l) else AutoHead(l) + AutoHistoryHeader + HistoryLines(h)) + AutoOutro
  }

  /** The prompt opens with the fixed request and the language sentence:
      the names joined by ", " when there are languages, the Portuguese or
      English default otherwise. */
  lemma AutoPromptFrame(l: Lists, h: seq<HistoryEntry>)
    ensures var p := AutoPrompt(l, h);
      && OccursAt(p, AutoIntro, 0)
      && (l.languages == [] ==> OccursAt(p, AutoLanguagesDefault, |AutoIntro|))
      && (l.languages != [] ==> OccursAt(p, LanguagesSentence(l.languages), |AutoIntro|))
  {
    var head := AutoHead(l);
    var sub := if l.languages == [] then AutoLanguagesDefault else LanguagesSentence(l.languages);
    AutoHeadOpens(l);
    var body := head;
    if h != [] {
      body := head + AutoHistoryHeader + HistoryLines(h);
      OccursExtend(head, AutoIntro, 0, AutoHistoryHeader);
      OccursExtend(head, sub, |AutoIntro|, AutoHistoryHeader);
      OccursExtend(head + AutoHistoryHeader, AutoIntro, 0, HistoryLines(h));
      OccursExtend(head + AutoHistoryHeader, sub, |AutoIntro|, HistoryLines(h));
    }
    var p := AutoPrompt(l, h);
    assert p == body + AutoOutro;
    OccursWithin(p, body, AutoOutro, AutoIntro, 0);
    OccursWithin(p, body, AutoOutro, sub, |AutoIntro|);
  }

  /** The prompt closes with the JSON instructions. */
  lemma AutoPromptCloses(l: Lists, h: seq<HistoryEntry>)
    ensures OccursAt(AutoPrompt(l, h), AutoOutro, |AutoPrompt(l, h)| - |AutoOutro|)
  {
    var body := if h == [] then AutoHead(l) else AutoHead(l) + AutoHistoryHeader + HistoryLines(h);
    OccursAtEnd(AutoPrompt(l, h), body, AutoOutro);
  }

  /** The head of the prompt: the fixed request, then the language line. */
  lemma AutoHeadOpens(l: Lists)
    ensures OccursAt(AutoHead(l), AutoIntro, 0)
    ensures OccursAt(AutoHead(l), if l.languages == [] then AutoLanguagesDefault else LanguagesSentence(l.languages), |AutoIntro|)
  {
    var ll := AutoLanguageLine(l.languages);
    LanguageLineOpens(l.languages);
    OccursShift(AutoIntro, ll, if l.languages == [] then AutoLanguagesDefault else LanguagesSentence(l.languages), 0);
    OccursBefore(AutoIntro, ll);
    OccursExtend(AutoIntro + ll, AutoIntro, 0, PreferenceLines(l));
    OccursExtend(AutoIntro + ll, if l.languages == [] then AutoLanguagesDefault else LanguagesSentence(l.languages), |AutoIntro|, PreferenceLines(l));
  }

  /** The language line starts with the sentence, or is the default. */
  lemma LanguageLineOpens(languages: seq<string>)
    ensures OccursAt(AutoLanguageLine(languages), if languages == [] then AutoLanguagesDefault else LanguagesSentence(languages), 0)
  {
    if languages == [] {
      OccursWhole(AutoLanguagesDefault);
    } else {
      OccursBefore(LanguagesSentence(languages), ". ONLY recommend books in these languages.\n\n");
    }
  }

  /** Appends one line per rated book, as the `forEach` does. */
  method AppendHistory(prefix: string, h: seq<HistoryEntry>) returns (text: string)
    ensures text == prefix + HistoryLines(h)
  {
    text := prefix;
    var i := 0;
    while i < |h|
      invariant 0 <= i <= |h|
      invariant text == prefix + HistoryLines(h[..i])
    {
      assert h[..i + 1] == h[..i] + [h[i]];
      HistoryLinesSnoc(h[..i], h[i]);
      AppendAssoc(prefix, HistoryLines(h[..i]), HistoryLine(h[i]));
      text := text + HistoryLine(h[i]);
      i := i + 1;
    }
    assert h[..i] == h;
  }

  /** Builds the automated prompt, the rated books by appending line after line. */
  method BuildAutoPrompt(l: Lists, h: seq<HistoryEntry>) returns (prompt: string)
    ensures prompt == AutoPrompt(l, h)
  {
    prompt := AutoHead(l);
    if |h| > 0 {
      prompt := AppendHistory(prompt + AutoHistoryHeader, h);
    }
    prompt := prompt + AutoOutro;
  }

  // ---------------------------------------------------------------
  // Reading the model's answer
  // ---------------------------------------------------------------

  /** A recommendation; `found` holds what the catalog search added. */
  datatype Found = Found(googleBookId: string, coverUrl: Option<string>)
  datatype Rec = Rec(title: string, author: string, description: string, found: Option<Found>)

  /** What `JSON.parse` followed by `Array.isArray` makes of a text. */
  datatype Parsed = NotJson | NotArray | Array(recs: seq<Rec>)

  /** The first position at or after `from` holding `c`, or `|t|`. */
  function FirstFrom(t: string, c: char, from: nat): (k: nat)
    requires from <= |t|
    ensures from <= k <= |t|
    ensures k < |t| ==> t[k] == c
    ensures forall j :: from <= j < k ==> t[j] != c
    decreases |t| - from
  {
    if from == |t| || t[from] == c then from else FirstFrom(t, c, from + 1)
  }

  /** The match of `/(\[[\s\S]*?\])/`: from the first '[' to the first ']'
      after it. */
  function JsonSpan(t: string): (r: Option<string>)
    ensures r.None? <==> !exists i, j :: 0 <= i < j < |t| && t[i] == '[' && t[j] == ']'
    ensures r.Some? ==>
      && |r.value| >= 2 && r.value[0] == '[' && r.value[|r.value| - 1] == ']'
      && (forall k :: 0 < k < |r.value| - 1 ==> r.value[k] != ']')
      && exists i :: OccursAt(t, r.value, i) && forall k :: 0 <= k < i ==> t[k] != '['
  {
    var i := FirstFrom(t, '[', 0);
    if i == |t| then None
    else
      var j := FirstFrom(t, ']', i + 1);
      if j == |t| then None
      else
        var r := t[i..j + 1];
        assert OccursAt(t, r, i);
        assert t[i] == '[' && t[j] == ']';
        Some(r)
  }

  /** The length of the whitespace run that starts `s`. */
  function SpaceRun(s: string): (n: nat)
    ensures n <= |s|
    ensures forall k :: 0 <= k < n ==> IsSpace(s[k])
    ensures n < |s| ==> !IsSpace(s[n])
  {
    if s != [] && IsSpace(s[0]) then 1 + SpaceRun(s[1..]) else 0
  }

  /** `s` starts with ',' followed by whitespace and ']'; the answer is the
      position of that ']'. */
  function CommaBeforeClose(s: string): (r: Option<nat>)
    ensures r.Some? ==> 1 <= r.value < |s| && s[0] == ',' && s[r.value] == ']'
    ensures r.Some? ==> forall k :: 1 <= k < r.value ==> IsSpace(s[k])
  {
    if s != [] && s[0] == ',' && 1 + SpaceRun(s[1..]) < |s| && s[1 + SpaceRun(s[1..])] == ']' then
      Some(1 + SpaceRun(s[1..]))
    else None
  }

  /** `replace(/,\s*\]/g, ']')`: every comma followed by whitespace and a
      closing bracket is dropped with that whitespace, left to right. */
  function DropCommaBeforeClose(s: string): string
    decreases |s|
  {
    if s == [] then []
    else match CommaBeforeClose(s)
      case Some(k) => "]" + DropCommaBeforeClose(s[k + 1..])
      case None => [s[0]] + DropCommaBeforeClose(s[1..])
  }

  /** `replace(/\n/g, ' ')`. */
  function NewlinesToSpaces(s: string): (r: string)
    ensures |r| == |s|
    ensures forall k :: 0 <= k < |s| ==> r[k] == if s[k] == '\n' then ' ' else s[k]
  {
    seq(|s|, k requires 0 <= k < |s| => if s[k] == '\n' then ' ' else s[k])
  }

  /** The clean-up applied to the extracted span. */
  function Cleanup(s: string): string
  {
    DropCommaBeforeClose(NewlinesToSpaces(s))
  }

  function Closes(s: string): nat
  {
    Count(s, (c: char) => c == ']')
  }

  lemma {:induction false} ClosesAppend(a: string, b: string)
    ensures Closes(a + b) == Closes(a) + Closes(b)
  {
    FilterAppend(a, b, (c: char) => c == ']');
  }

  /** Dropping the commas never lengthens the text and brings in no
      character that was not there. */
  lemma {:induction false} DropCommaShrinks(s: string)
    ensures |DropCommaBeforeClose(s)| <= |s|
    ensures forall c :: c in DropCommaBeforeClose(s) ==> c in s
    decreases |s|
  {
    if s != [] {
      match CommaBeforeClose(s)
      case Some(k) =>
        DropCommaShrinks(s[k + 1..]);
        assert forall c :: c in s[k + 1..] ==> c in s;
      case None =>
        DropCommaShrinks(s[1..]);
        assert forall c :: c in s[1..] ==> c in s;
    }
  }

  lemma ClosesSplit(s: string, a: string, b: string)
    requires a + b == s
    ensures Closes(s) == Closes(a) + Closes(b)
  {
    ClosesAppend(a, b);
  }

  /** Dropping the commas keeps every ']'. */
  lemma {:induction false} DropCommaKeepsCloses(s: string)
    ensures Closes(DropCommaBeforeClose(s)) == Closes(s)
    decreases |s|
  {
    if s != [] {
      match CommaBeforeClose(s)
      case Some(k) =>
        var rest := s[k + 1..];
        DropCommaKeepsCloses(rest);
        SplitAround(s, k);
        ClosesSplit(s, s[..k] + [s[k]], rest);
        ClosesAppend(s[..k], [s[k]]);
        ClosesAppend("]", DropCommaBeforeClose(rest));
        NoCloseInRun(s, k);
      case None =>
        var rest := s[1..];
        DropCommaKeepsCloses(rest);
        HeadTail(s);
        ClosesSplit(s, [s[0]], rest);
        ClosesAppend([s[0]], DropCommaBeforeClose(rest));
    }
  }

  /** A text in which no comma is followed by whitespace and ']' is left as it was. */
  lemma {:induction false} DropCommaIdle(s: string)
    requires forall k :: 0 <= k < |s| ==> CommaBeforeClose(s[k..]).None?
    ensures DropCommaBeforeClose(s) == s
    decreases |s|
  {
    if s != [] {
      assert s[0..] == s;
      forall k | 0 <= k < |s[1..]| ensures CommaBeforeClose(s[1..][k..]).None? {
        assert s[1..][k..] == s[k + 1..];
      }
      DropCommaIdle(s[1..]);
    }
  }

  /** The comma and the whitespace before the ']' hold no ']'. */
  lemma NoCloseInRun(s: string, k: nat)
    requires 1 <= k < |s| && s[0] == ','
    requires forall j :: 1 <= j < k ==> IsSpace(s[j])
    ensures Closes(s[..k]) == 0
  {
    assert forall j :: 0 <= j < k ==> s[..k][j] != ']';
    FilterNone(s[..k]);
  }

  lemma {:induction false} FilterNone(s: string)
    requires forall j :: 0 <= j < |s| ==> s[j] != ']'
    ensures Closes(s) == 0
  {
    if s != [] {
      HeadTail(s);
      ClosesSplit(s, [s[0]], s[1..]);
      FilterNone(s[1..]);
    }
  }

  /** The cleaned span has no line break, is no longer than the span and
      keeps all its closing brackets. */
  lemma CleanupFacts(s: string)
    ensures var r := Cleanup(s);
      '\n' !in r && |r| <= |s| && Closes(r) == Closes(NewlinesToSpaces(s))
  {
    var n := NewlinesToSpaces(s);
    DropCommaShrinks(n);
    DropCommaKeepsCloses(n);
    assert '\n' !in n;
  }

  const NoSpan := "Couldn't parse recommendations"
  const BadJson := "Invalid JSON in recommendations"
  const NotAnArray := "Recommendations format is incorrect"

  /** The recommendations the handler reads from the model's text: the whole
      text when it parses, otherwise the cleaned span; 500 when there is no
      span, when the span does not parse, or when the value is not an array. */
  function ParseRecommendations(text: string, parse: string -> Parsed): Response<seq<Rec>>
  {
    Interpret(parse(Trim(text)), JsonSpan(text), parse)
  }

  /** The decision once the whole text has been parsed and the span found. */
  function Interpret(whole: Parsed, span: Option<string>, parse: string -> Parsed): Response<seq<Rec>>
  {
    if whole.NotJson? then
      match span
      case None => Error(500, NoSpan)
      case Some(sp) =>
        var cleaned := parse(Cleanup(Trim(sp)));
        if cleaned.NotJson? then Error(500, BadJson)
        else if cleaned.NotArray? then Error(500, NotAnArray)
        else Ok(200, cleaned.recs)
    else if whole.NotArray? then Error(500, NotAnArray)
    else Ok(200, whole.recs)
  }

  /** A text that parses as a whole is taken as it is; the span is only a
      fallback. */
  lemma ParseWholeFirst(text: string, parse: string -> Parsed)
    ensures parse(Trim(text)).Array? ==> ParseRecommendations(text, parse) == Ok(200, parse(Trim(text)).recs)
    ensures parse(Trim(text)).NotArray? ==>
      ParseRecommendations(text, parse) == Error(500, NotAnArray)
    ensures parse(Trim(text)).NotJson? && JsonSpan(text).Some? ==>
      var cleaned := parse(Cleanup(Trim(JsonSpan(text).value)));
      ParseRecommendations(text, parse) ==
        if cleaned.Array? then Ok(200, cleaned.recs)
        else if cleaned.NotJson? then Error(500, BadJson)
        else Error(500, NotAnArray)
  {
  }

  /** "Couldn't parse" is the answer exactly when the text is not JSON and
      has no span, that is (by `JsonSpan`'s contract) no '[' followed by a ']'. */
  lemma ParseNoSpan(text: string, parse: string -> Parsed)
    ensures ParseRecommendations(text, parse) == Error(500, NoSpan) <==>
      parse(Trim(text)).NotJson? && JsonSpan(text).None?
  {
    InterpretNoSpan(parse(Trim(text)), JsonSpan(text), parse);
  }

  lemma InterpretNoSpan(whole: Parsed, span: Option<string>, parse: string -> Parsed)
    ensures Interpret(whole, span, parse) == Error(500, NoSpan) <==> whole.NotJson? && span.None?
  {
    // The three messages start with different letters, so the answer names the case.
    assert NoSpan[0] == 'C' && BadJson[0] == 'I' && NotAnArray[0] == 'R';
    if whole.NotJson? && span.Some? {
      var cleaned := parse(Cleanup(Trim(span.value)));
      assert Interpret(whole, span, parse) ==
        if cleaned.NotJson? then Error(500, BadJson)
        else if cleaned.NotArray? then Error(500, NotAnArray)
        else Ok(200, cleaned.recs);
    }
  }

  // ---------------------------------------------------------------
  // Enrichment
  // ---------------------------------------------------------------

  /** The catalog query for one recommendation. */
  function EnrichQuery(rec: Rec): string
  {
    "intitle:\"" + rec.title + "\" inauthor:\"" + rec.author + "\""
  }

  /** The recommendation after its search: the first hit's id, cover and
      description when the search found an item with volume data, the
      recommendation as it was otherwise. */
  function Enrich(rec: Rec, resp: GB.SearchResponse): Rec
  {
    if resp.items.Some? && |resp.items.value| > 0 then
      match GB.FormatBookData(resp.items.value[0])
      case Some(b) => rec.(description := b.description, found := Some(Found(b.googleBookId, b.coverUrl)))
      case None => rec
    else rec
  }

  /** Enrichment keeps the title and author, adds the first hit's data, and
      changes nothing when the search comes back empty. */
  lemma EnrichFacts(rec: Rec, resp: GB.SearchResponse)
    ensures var r := Enrich(rec, resp);
      && r.title == rec.title && r.author == rec.author
      && (resp.items.None? || resp.items.value == [] ==> r == rec)
      && (resp.items.Some? && resp.items.value != [] && resp.items.value[0].volumeInfo.Some? ==>
            r.found == Some(Found(resp.items.value[0].id, GB.FormatBookData(resp.items.value[0]).value.coverUrl))
            && r.description == GB.FormatBookData(resp.items.value[0]).value.description)
  {
  }

  /** A failed search leaves a recommendation as it was. */
  lemma EnrichFailedSearch(rec: Rec)
    ensures Enrich(rec, GB.EmptySearch) == rec
  {
  }

  /** The k-th search ran on the cache left by the (k-1)-th, answered
      `results[k]`, left `caches[k + 1]`, and its recommendation was enriched
      with that answer. */
  ghost predicate Searched(recs: seq<Rec>, now: int, outcomes: nat -> seq<GB.Outcome<GB.SearchResponse>>,
                           r: seq<Rec>, results: seq<GB.SearchResponse>, caches: seq<map<string, GB.CacheEntry>>, k: nat)
    requires k < |recs| && k < |r| && k < |results| && k + 1 < |caches|
  {
    && |outcomes(k)| > GB.DefaultRetries
    && var run := GB.SearchSpec(caches[k], GB.SearchKey(EnrichQuery(recs[k]), 0, 1), now, outcomes(k), GB.DefaultRetries);
      run.result == results[k] && run.cache == caches[k + 1] && r[k] == Enrich(recs[k], results[k])
  }

  /** Searches the catalog once per recommendation (`searchBooks(q, 0, 1)`)
      and merges the first hit; `outcomes(k)` answers the requests of the
      k-th search. */
  method EnrichAll(gw: GB.Gateway, recs: seq<Rec>, now: int, outcomes: nat -> seq<GB.Outcome<GB.SearchResponse>>)
    returns (r: seq<Rec>, ghost results: seq<GB.SearchResponse>, ghost caches: seq<map<string, GB.CacheEntry>>)
    requires gw.Valid()
    requires forall k: nat :: |outcomes(k)| > GB.DefaultRetries
    modifies gw
    ensures gw.Valid()
    ensures |r| == |results| == |recs| && |caches| == |recs| + 1
    ensures caches[0] == old(gw.cache) && caches[|recs|] == gw.cache
    ensures forall k :: 0 <= k < |recs| ==> Searched(recs, now, outcomes, r, results, caches, k)
  {
    r, results, caches := [], [], [gw.cache];
    var i := 0;
    while i < |recs|
      invariant 0 <= i <= |recs|
      invariant gw.Valid()
      invariant |r| == |results| == i && |caches| == i + 1
      invariant caches[0] == old(gw.cache) && caches[i] == gw.cache
      invariant forall k :: 0 <= k < i ==> Searched(recs, now, outcomes, r, results, caches, k)
    {
      ghost var before := gw.cache;
      var resp, _, _ := gw.SearchBooks(EnrichQuery(recs[i]), 0, 1, GB.DefaultRetries, now, outcomes(i));
      ghost var r0, results0, caches0 := r, results, caches;
      r, results, caches := r + [Enrich(recs[i], resp)], results + [resp], caches + [gw.cache];
      assert Searched(recs, now, outcomes, r, results, caches, i);
      forall k | 0 <= k < i
        ensures Searched(recs, now, outcomes, r, results, caches, k)
      {
        assert Searched(recs, now, outcomes, r0, results0, caches0, k);
        assert r[k] == r0[k] && results[k] == results0[k] && caches[k] == caches0[k] && caches[k + 1] == caches0[k + 1];
      }
      i := i + 1;
    }
  }

  // ---------------------------------------------------------------
  // getAutomatedRecommendations
  // ---------------------------------------------------------------

  /** The setting is present and on. */
  predicate Enabled(settings: map<string, bool>, uid: string)
  {
    uid in settings && settings[uid]
  }

  /** The relation orders and picked ratings resolve against the store. */
  ghost predicate Resolves(db: Db, o: Orders, picks: seq<nat>)
    reads db
  {
    && (forall k :: 0 <= k < |o.likedTropes| ==> o.likedTropes[k] < |db.tropes|)
    && (forall k :: 0 <= k < |o.dislikedTropes| ==> o.dislikedTropes[k] < |db.tropes|)
    && (forall k :: 0 <= k < |o.languages| ==> o.languages[k] in db.languages)
    && (forall k :: 0 <= k < |picks| ==> picks[k] < |db.ratings| && db.ratings[picks[k]].bookId in db.books)
  }

  /** Reads the caller's preferences and recent ratings and builds the
      automated prompt from them. */
  method AutoPromptFor(db: Db, uid: string) returns (prompt: string, ghost o: Orders)
    requires db.Valid() && uid in db.users
    ensures OrdersOf(o, db.users[uid]) && Resolves(db, o, RecentRatings(db.ratings, uid))
    ensures prompt == AutoPrompt(NamesOf(o, db.tropes, db.languages),
                                 HistoryOf(db.ratings, db.books, RecentRatings(db.ratings, uid)))
  {
    var names;
    o, names := GatherLists(db, uid);
    var picks := RecentRatings(db.ratings, uid);
    RecentRatingsResolve(db, uid);
    prompt := BuildAutoPrompt(names, HistoryOf(db.ratings, db.books, picks));
  }

  /** Sends the prompt to the model, reads its answer and enriches every
      recommendation. */
  method Recommend(gw: GB.Gateway, prompt: string, now: int, generate: string -> Option<string>,
                   parse: string -> Parsed, outcomes: nat -> seq<GB.Outcome<GB.SearchResponse>>)
    returns (res: Response<seq<Rec>>, ghost results: seq<GB.SearchResponse>, ghost caches: seq<map<string, GB.CacheEntry>>)
    requires gw.Valid()
    requires forall k: nat :: |outcomes(k)| > GB.DefaultRetries
    modifies gw
    ensures gw.Valid()
    ensures generate(prompt).None? ==> res == Error(500, GenerateFailed) && gw.cache == old(gw.cache)
    ensures generate(prompt).Some? ==>
      var parsed := ParseRecommendations(generate(prompt).value, parse);
      && (parsed.Error? ==> res == parsed && gw.cache == old(gw.cache))
      && (parsed.Ok? ==>
            && res.Ok? && res.status == 200 && |res.value| == |parsed.value| == |results|
            && |caches| == |parsed.value| + 1 && caches[0] == old(gw.cache) && caches[|parsed.value|] == gw.cache
            && forall k :: 0 <= k < |res.value| ==> Searched(parsed.value, now, outcomes, res.value, results, caches, k))
  {
    results, caches := [], [];
    var answer := generate(prompt);
    if answer.None? {
      return Error(500, GenerateFailed), results, caches;
    }
    var parsed := ParseRecommendations(answer.value, parse);
    if parsed.Error? {
      return parsed, results, caches;
    }
    var enriched;
    enriched, results, caches := EnrichAll(gw, parsed.value, now, outcomes);
    res := Ok(200, enriched);
  }

  /** `getAutomatedRecommendations`. `generate` is the model: it answers a
      prompt with a text or fails; `sent` is the prompt the model was given. */
  method GetAutomatedRecommendations(db: Db, gw: GB.Gateway, auth: Option<AuthUser>, now: int,
                                     generate: string -> Option<string>, parse: string -> Parsed,
                                     outcomes: nat -> seq<GB.Outcome<GB.SearchResponse>>)
    returns (res: Response<seq<Rec>>, sent: Option<string>, ghost o: Orders,
             ghost results: seq<GB.SearchResponse>, ghost caches: seq<map<string, GB.CacheEntry>>)
    requires db.Valid() && gw.Valid()
    requires forall k: nat :: |outcomes(k)| > GB.DefaultRetries
    modifies gw
    ensures gw.Valid()
    ensures auth.None? ==> res == Error(401, UserNotAuthenticated) && sent.None? && gw.cache == old(gw.cache)
    ensures auth.Some? && auth.value.uid !in db.users ==>
      res == Error(404, UserNotFound) && sent.None? && gw.cache == old(gw.cache)
    ensures auth.Some? && auth.value.uid in db.users ==>
      var uid := auth.value.uid;
      var picks := RecentRatings(db.ratings, uid);
      && (!Enabled(db.settings, uid) || (picks == [] && !HasPreferences(db.users[uid])) ==>
            res == Ok(200, []) && sent.None? && gw.cache == old(gw.cache))
      && (Enabled(db.settings, uid) && (picks != [] || HasPreferences(db.users[uid])) ==>
            && OrdersOf(o, db.users[uid]) && Resolves(db, o, picks)
            && sent == Some(AutoPrompt(NamesOf(o, db.tropes, db.languages), HistoryOf(db.ratings, db.books, picks)))
            && (generate(sent.value).None? ==> res == Error(500, GenerateFailed) && gw.cache == old(gw.cache))
            && (generate(sent.value).Some? ==>
                  var parsed := ParseRecommendations(generate(sent.value).value, parse);
                  && (parsed.Error? ==> res == parsed && gw.cache == old(gw.cache))
                  && (parsed.Ok? ==>
                        && res.Ok? && res.status == 200 && |res.value| == |parsed.value| == |results|
                        && |caches| == |parsed.value| + 1 && caches[0] == old(gw.cache) && caches[|parsed.value|] == gw.cache
                        && forall k :: 0 <= k < |res.value| ==>
                             Searched(parsed.value, now, outcomes, res.value, results, caches, k))))
  {
    sent, o, results, caches := None, Orders([], [], [], [], [], [], []), [], [];
    if auth.None? {
      return Error(401, UserNotAuthenticated), sent, o, results, caches;
    }
    var uid := auth.value.uid;
    if uid !in db.users {
      return Error(404, UserNotFound), sent, o, results, caches;
    }
    if !(uid in db.settings && db.settings[uid]) {
      return Ok(200, []), sent, o, results, caches;
    }
    var picks := RecentRatings(db.ratings, uid);
    if |picks| == 0 && !HasPreferences(db.users[uid]) {
      return Ok(200, []), sent, o, results, caches;
    }
    var prompt;
    prompt, o := AutoPromptFor(db, uid);
    sent := Some(prompt);
    res, results, caches := Recommend(gw, prompt, now, generate, parse, outcomes);
  }

  // ---------------------------------------------------------------
  // getChatRecommendation
  // ---------------------------------------------------------------

  const ChatLanguagesDefault := "Languages: Not specified (default to Portuguese or English)\n"
  const ChatHistoryHeader := "\nREADING HISTORY (Books the user has rated):\n"
  const ReadingListHeader := "\nREADING LIST (to be read):\n"
  const MessageRequired := "Message is required"
  const ChatApology := "I'm sorry, I'm having trouble generating recommendations right now. Please try again in a few minutes."
  const ChatIntro := "As an AI book recommendation assistant, please respond to the following request from a user:\n\n\""
  const ChatInstructions :=
    "\n\nPlease make use of the user's preferences when they ask for personalized recommendations.\n\n"
    + "For each recommendation, include:\n"
    + "1. Title and author\n"
    + "2. Brief description\n"
    + "3. If they're asking specifically about their \"to be read\" list or which book to read first, explain why they should read it based on their preferences.\n"
    + "   Otherwise, explain why you're recommending it based on their request and preferences.\n\n"
    + "IMPORTANT: For each book you recommend, include a link format exactly like this example: [Book Title](/books/GOOGLE_BOOK_ID)\n"
    + "If you can't find the exact Google Book ID, just use the book title as an identifier.\n\n"
    + "Format each recommendation with clear headings and keep your overall response friendly and helpful. And please always try to match the language of the user's request. The default language of the site is portuguese."

  /** The language line of the chat preferences. */
  function ChatLanguageLine(languages: seq<string>): string
  {
    if languages != [] then "Languages: " + Join(languages, ", ") + " (ONLY recommend books in these languages)\n"
    else ChatLanguagesDefault
  }

  /** The preferences block of the chat prompt; the rated books come under
      their header only when there is one. */
  function ChatPreferences(l: Lists, h: seq<HistoryEntry>): string
  {
    var head := "USER PREFERENCES:\n" + ChatLanguageLine(l.languages) + PreferenceLines(l);
    if h == [] then head else head + ChatHistoryHeader + HistoryLines(h)
  }

  function NumberedLine(n: nat, b: ListedBook): string
  {
    NatToString(n) + ". \"" + b.title + "\" by " + b.author + "\n"
  }

  /** The reading list, its lines numbered from `first`. */
  function NumberedLines(books: seq<ListedBook>, first: nat): string
  {
    if books == [] then [] else NumberedLine(first, books[0]) + NumberedLines(books[1..], first + 1)
  }

  lemma {:induction false} NumberedLinesAppend(a: seq<ListedBook>, b: seq<ListedBook>, first: nat)
    ensures NumberedLines(a + b, first) == NumberedLines(a, first) + NumberedLines(b, first + |a|)
  {
    if a == [] {
      assert a + b == b;
    } else {
      assert (a + b)[0] == a[0];
      assert (a + b)[1..] == a[1..] + b;
      NumberedLinesAppend(a[1..], b, first + 1);
      AppendAssoc(NumberedLine(first, a[0]), NumberedLines(a[1..], first + 1), NumberedLines(b, first + |a|));
    }
  }

  lemma NumberedLinesSplit(books: seq<ListedBook>, a: seq<ListedBook>, b: seq<ListedBook>, first: nat)
    requires a + b == books
    ensures NumberedLines(books, first) == NumberedLines(a, first) + NumberedLines(b, first + |a|)
  {
    NumberedLinesAppend(a, b, first);
  }

  /** One more book adds its line, numbered after the others, at the end. */
  lemma NumberedLinesSnoc(books: seq<ListedBook>, b: ListedBook, first: nat)
    ensures NumberedLines(books + [b], first) == NumberedLines(books, first) + NumberedLine(first + |books|, b)
  {
    NumberedLinesAppend(books, [b], first);
    assert [b][1..] == [];
  }

  /** The k-th book of the list (counting from 0) is numbered `first + k`
      and comes right after the lines of the books before it. */
  lemma NumberedEntryAt(books: seq<ListedBook>, first: nat, k: nat)
    requires k < |books|
    ensures NumberedLines(books, first)
      == NumberedLines(books[..k], first) + NumberedLine(first + k, books[k]) + NumberedLines(books[k + 1..], first + k + 1)
  {
    SplitAround(books, k);
    NumberedLinesSplit(books, books[..k] + [books[k]], books[k + 1..], first);
    NumberedLinesSnoc(books[..k], books[k], first);
  }

  /** The reading-list block, present only when the list is not empty. */
  function ReadingListText(books: seq<ListedBook>): string
  {
    if books == [] then [] else ReadingListHeader + NumberedLines(books, 1)
  }

  /** The prompt of `getChatRecommendation`. */
  function ChatPrompt(message: string, preferences: string, readingList: string): string
  {
    ChatIntro + message + "\"\n\n" + preferences + "\n" + readingList + ChatInstructions
  }

  /** The user's message is quoted right after the fixed opening, and the
      prompt ends with the fixed instructions. */
  lemma ChatPromptQuotesMessage(message: string, preferences: string, readingList: string)
    ensures var p := ChatPrompt(message, preferences, readingList);
      && OccursAt(p, ChatIntro, 0)
      && OccursAt(p, message, |ChatIntro|)
      && OccursAt(p, ChatInstructions, |p| - |ChatInstructions|)
  {
    Framed(ChatIntro, message, "\"\n\n", preferences, "\n", readingList, ChatInstructions);
  }

  /** Appends one numbered line per book, as the `forEach` does. */
  method AppendNumbered(prefix: string, books: seq<ListedBook>) returns (text: string)
    ensures text == prefix + NumberedLines(books, 1)
  {
    text := prefix;
    var i := 0;
    while i < |books|
      invariant 0 <= i <= |books|
      invariant text == prefix + NumberedLines(books[..i], 1)
    {
      assert books[..i + 1] == books[..i] + [books[i]];
      NumberedLinesSnoc(books[..i], books[i], 1);
      AppendAssoc(prefix, NumberedLines(books[..i], 1), NumberedLine(i + 1, books[i]));
      text := text + NumberedLine(i + 1, books[i]);
      i := i + 1;
    }
    assert books[..i] == books;
  }

  /** Builds the chat preferences block, the rated books line after line. */
  method BuildChatPreferences(l: Lists, h: seq<HistoryEntry>) returns (text: string)
    ensures text == ChatPreferences(l, h)
  {
    text := "USER PREFERENCES:\n" + ChatLanguageLine(l.languages) + PreferenceLines(l);
    if |h| > 0 {
      text := AppendHistory(text + ChatHistoryHeader, h);
    }
  }

  /** The title and author of each listed book. */
  function ListedBooks(books: map<string, GB.BookData>, ids: seq<string>): seq<ListedBook>
    requires forall k :: 0 <= k < |ids| ==> ids[k] in books
  {
    seq(|ids|, k requires 0 <= k < |ids| => ListedBook(books[ids[k]].title, books[ids[k]].author))
  }

  /** Builds the numbered reading list of a stored user. */
  method ReadingListFor(db: Db, uid: string) returns (text: string, ghost listed: seq<string>)
    requires db.Valid() && uid in db.users
    ensures Enumerates(listed, db.users[uid].readingList)
    ensures forall k :: 0 <= k < |listed| ==> listed[k] in db.books
    ensures text == ReadingListText(ListedBooks(db.books, listed))
  {
    var ids := Enumerate(db.users[uid].readingList);
    listed := ids;
    assert UserLinksResolve(db.users[uid], db.users, db.books, |db.tropes|, db.categories, db.authors, db.languages);
    assert forall k :: 0 <= k < |ids| ==> ids[k] in db.users[uid].readingList;
    var books := ListedBooks(db.books, ids);
    text := "";
    if |books| > 0 {
      text := AppendNumbered(ReadingListHeader, books);
    }
  }

  /** Reads the caller's preferences, ratings and reading list and builds
      the chat prompt around the message. */
  method ChatPromptFor(db: Db, uid: string, message: string) returns (prompt: string, ghost o: Orders, ghost listed: seq<string>)
    requires db.Valid() && uid in db.users
    ensures OrdersOf(o, db.users[uid]) && Resolves(db, o, RecentRatings(db.ratings, uid))
    ensures Enumerates(listed, db.users[uid].readingList) && forall k :: 0 <= k < |listed| ==> listed[k] in db.books
    ensures prompt == ChatPrompt(message,
                                 ChatPreferences(NamesOf(o, db.tropes, db.languages),
                                                 HistoryOf(db.ratings, db.books, RecentRatings(db.ratings, uid))),
                                 ReadingListText(ListedBooks(db.books, listed)))
  {
    var picks := RecentRatings(db.ratings, uid);
    RecentRatingsResolve(db, uid);
    var names;
    o, names := GatherLists(db, uid);
    var preferences := BuildChatPreferences(names, HistoryOf(db.ratings, db.books, picks));
    var readingList;
    readingList, listed := ReadingListFor(db, uid);
    prompt := ChatIntro + message + "\"\n\n" + preferences + "\n" + readingList + ChatInstructions;
  }

  /** `getChatRecommendation`: the message is checked before the caller;
      a model failure still answers 200, with the apology. */
  method GetChatRecommendation(db: Db, auth: Option<AuthUser>, message: string, generate: string -> Option<string>)
    returns (res: Response<string>, sent: Option<string>, ghost o: Orders, ghost listed: seq<string>)
    requires db.Valid()
    ensures message == [] ==> res == Error(400, MessageRequired) && sent.None?
    ensures message != [] && auth.None? ==> res == Error(401, UserNotAuthenticated) && sent.None?
    ensures message != [] && auth.Some? && auth.value.uid !in db.users ==> res == Error(404, UserNotFound) && sent.None?
    ensures message != [] && auth.Some? && auth.value.uid in db.users ==>
      var uid := auth.value.uid;
      var picks := RecentRatings(db.ratings, uid);
      && OrdersOf(o, db.users[uid]) && Resolves(db, o, picks)
      && Enumerates(listed, db.users[uid].readingList) && (forall k :: 0 <= k < |listed| ==> listed[k] in db.books)
      && sent == Some(ChatPrompt(message,
                                 ChatPreferences(NamesOf(o, db.tropes, db.languages), HistoryOf(db.ratings, db.books, picks)),
                                 ReadingListText(ListedBooks(db.books, listed))))
      && res == Ok(200, generate(sent.value).GetOr(ChatApology))
  {
    sent, o, listed := None, Orders([], [], [], [], [], [], []), [];
    if message == [] {
      return Error(400, MessageRequired), sent, o, listed;
    }
    if auth.None? {
      return Error(401, UserNotAuthenticated), sent, o, listed;
    }
    var uid := auth.value.uid;
    if uid !in db.users {
      return Error(404, UserNotFound), sent, o, listed;
    }
    var prompt;
    prompt, o, listed := ChatPromptFor(db, uid, message);
    sent := Some(prompt);
    res := Ok(200, generate(prompt).GetOr(ChatApology));
  }

  // ---------------------------------------------------------------
  // The automated-recommendations setting
  // ---------------------------------------------------------------

  const NotBoolean := "automatedRecommendationsEnabled must be a boolean"

  /** `getRecommendationSettings`: the answer and the settings table after
      it; a missing row is created switched on. */
  function ReadSetting(settings: map<string, bool>, auth: Option<AuthUser>): (r: (Response<bool>, map<string, bool>))
    ensures auth.None? ==> r == (Error(401, UserNotAuthenticated), settings)
    ensures auth.Some? ==> auth.value.uid in r.1 && r.0 == Ok(200, r.1[auth.value.uid])
    ensures auth.Some? && auth.value.uid in settings ==> r == (Ok(200, settings[auth.value.uid]), settings)
    ensures auth.Some? && auth.value.uid !in settings ==> r == (Ok(200, true), settings[auth.value.uid := true])
  {
    if auth.None? then (Error(401, UserNotAuthenticated), settings)
    else
      var s := if auth.value.uid in settings then settings else settings[auth.value.uid := true];
      (Ok(200, s[auth.value.uid]), s)
  }

  /** `updateRecommendationSettings`; `enabled` is None when the body's
      value is not a boolean. */
  function WriteSetting(settings: map<string, bool>, auth: Option<AuthUser>, enabled: Option<bool>)
    : (r: (Response<bool>, map<string, bool>))
  {
    if auth.None? then (Error(401, UserNotAuthenticated), settings)
    else if enabled.None? then (Error(400, NotBoolean), settings)
    else (Ok(200, enabled.value), settings[auth.value.uid := enabled.value])
  }

  /** A write is refused without a boolean; otherwise a later read answers
      the written value, other users' settings are untouched, and reading
      changes nothing once the row exists. */
  lemma SettingsFacts(settings: map<string, bool>, auth: Option<AuthUser>, enabled: Option<bool>)
    ensures auth.Some? && enabled.None? ==> WriteSetting(settings, auth, enabled).1 == settings
    ensures auth.Some? && enabled.Some? ==>
      var w := WriteSetting(settings, auth, enabled);
      && w.0 == Ok(200, enabled.value)
      && ReadSetting(w.1, auth) == (Ok(200, enabled.value), w.1)
      && (forall v :: v in settings && v != auth.value.uid ==> v in w.1 && w.1[v] == settings[v])
    ensures var r := ReadSetting(settings, auth); ReadSetting(r.1, auth) == r
  {
  }

  method GetRecommendationSettings(db: Db, auth: Option<AuthUser>) returns (res: Response<bool>)
    requires db.Valid()
    modifies db`settings
    ensures db.Valid()
    ensures (res, db.settings) == ReadSetting(old(db.settings), auth)
  {
    if auth.None? {
      return Error(401, UserNotAuthenticated);
    }
    if auth.value.uid !in db.settings {
      db.settings := db.settings[auth.value.uid := true];
    }
    return Ok(200, db.settings[auth.value.uid]);
  }

  method UpdateRecommendationSettings(db: Db, auth: Option<AuthUser>, enabled: Option<bool>) returns (res: Response<bool>)
    requires db.Valid()
    modifies db`settings
    ensures db.Valid()
    ensures (res, db.settings) == WriteSetting(old(db.settings), auth, enabled)
  {
    if auth.None? {
      return Error(401, UserNotAuthenticated);
    }
    if enabled.None? {
      return Error(400, NotBoolean);
    }
    db.settings := db.settings[auth.value.uid := enabled.value];
    return Ok(200, enabled.value);
  }
}
