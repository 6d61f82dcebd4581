/** The book page: stripping HTML from the description, ordering the
    ratings (followed readers first, newest first), finding the signed-in
    reader's own rating, the follower filter of the share dialog, and the
    history state the page keeps. */
module BookDetail {
  import opened Wrappers
  import opened Seqs
  import opened Text

  // ---------------------------------------------------------------
  // stripHtmlTags: `html.replace(/<[^>]*>/g, '')`
  // ---------------------------------------------------------------

  /** No '<' is followed, anywhere later, by a '>': the string holds no
      span the pattern `<[^>]*>` matches. */
  predicate NoTag(s: string)
  {
    forall i, j :: 0 <= i < j < |s| && s[i] == '<' ==> s[j] != '>'
  }

  /** The global replace scans left to right: at a '<' that has a '>'
      somewhere after it, the span up to the first such '>' is deleted;
      any other character is kept. */
  function StripHtmlTags(s: string): (r: string)
    ensures |r| <= |s|
    ensures forall i :: 0 <= i < |r| ==> r[i] in s
    ensures NoTag(r)
    decreases |s|
  {
    if s == [] then []
    else if s[0] == '<' && '>' in s then
      var close := FirstIndex(s, '>');
      var rest := StripHtmlTags(s[close + 1..]);
      assert forall i :: 0 <= i < |rest| ==> rest[i] in s by {
        forall i | 0 <= i < |rest| ensures rest[i] in s {
          var k :| close + 1 <= k < |s| && s[k] == rest[i] by {
            assert rest[i] in s[close + 1..];
          }
        }
      }
      rest
    else
      var rest := StripHtmlTags(s[1..]);
      var r := [s[0]] + rest;
      assert forall i :: 0 <= i < |r| ==> r[i] in s by {
        forall i | 1 <= i < |r| ensures r[i] in s {
          assert r[i] == rest[i - 1];
          assert rest[i - 1] in s[1..];
        }
      }
      assert NoTag(r) by {
        forall i, j | 0 <= i < j < |r| && r[i] == '<' ensures r[j] != '>' {
          if i == 0 {
            assert '>' !in s;
            assert r[j] == rest[j - 1];
            assert rest[j - 1] in s[1..];
          } else {
            assert r[i] == rest[i - 1] && r[j] == rest[j - 1];
          }
        }
      }
      r
  }

  /** A string holding no tag is left as it is. */
  lemma {:induction false} StripKeepsTagless(s: string)
    requires NoTag(s)
    ensures StripHtmlTags(s) == s
    decreases |s|
  {
    if s != [] {
      if s[0] == '<' {
        forall k | 0 <= k < |s| ensures s[k] != '>' {
          if k > 0 {
            assert s[0] == '<';
          }
        }
      }
      assert NoTag(s[1..]) by {
        forall i, j | 0 <= i < j < |s[1..]| && s[1..][i] == '<' ensures s[1..][j] != '>' {
          assert s[i + 1] == '<';
        }
      }
      StripKeepsTagless(s[1..]);
    }
  }

  /** In particular a string without '<' is unchanged. */
  lemma StripWithoutOpen(s: string)
    requires '<' !in s
    ensures StripHtmlTags(s) == s
  {
    forall i | 0 <= i < |s| ensures s[i] != '<' {
      assert s[i] in s;
    }
    StripKeepsTagless(s);
  }

  /** Stripping twice is the same as stripping once. */
  lemma StripIdempotent(s: string)
    ensures StripHtmlTags(StripHtmlTags(s)) == StripHtmlTags(s)
  {
    StripKeepsTagless(StripHtmlTags(s));
  }

  // ---------------------------------------------------------------
  // Ratings: order and the signed-in reader's rating
  // ---------------------------------------------------------------

  datatype RatingUser = RatingUser(username: string, email: string)

  /** One rating of the book; `createdAt` is the time in milliseconds that
      `new Date(createdAt).getTime()` gives. */
  datatype Rating = Rating(id: string, rating: int, review: Option<string>, createdAt: int, user: Option<RatingUser>)

  /** The rating was written by a reader the signed-in reader follows. */
  predicate FollowedRating(followed: seq<string>, r: Rating)
  {
    r.user.Some? && r.user.value.username in followed
  }

  /** The `sortedRatings` comparator as an order: a followed reader's rating
      before anyone else's, and within each group the later `createdAt` first. */
  function RatingOrder(followed: seq<string>): (Rating, Rating) -> bool
  {
    (a: Rating, b: Rating) =>
      (FollowedRating(followed, a) && !FollowedRating(followed, b))
      || (FollowedRating(followed, a) == FollowedRating(followed, b) && a.createdAt >= b.createdAt)
  }

  /** `sortedRatings`: the ratings sorted (stably) on a copy. */
  function SortedRatings(ratings: seq<Rating>, followed: seq<string>): (r: seq<Rating>)
    ensures multiset(r) == multiset(ratings)
  {
    SortBy(ratings, RatingOrder(followed))
  }

  lemma RatingOrderSorts(ratings: seq<Rating>, followed: seq<string>)
    ensures Sorted(SortedRatings(ratings, followed), RatingOrder(followed))
  {
    assert Total(RatingOrder(followed)) && Transitive(RatingOrder(followed));
    SortBySorted(ratings, RatingOrder(followed));
  }

  /** Every rating by a followed reader comes before every other rating, and
      within each group later ratings come first. */
  lemma SortedRatingsOrder(ratings: seq<Rating>, followed: seq<string>)
    ensures var r := SortedRatings(ratings, followed);
      && (forall i, j :: 0 <= i < j < |r| && FollowedRating(followed, r[j]) ==> FollowedRating(followed, r[i]))
      && (forall i, j :: 0 <= i < j < |r| && FollowedRating(followed, r[i]) == FollowedRating(followed, r[j]) ==>
            r[i].createdAt >= r[j].createdAt)
  {
    RatingOrderSorts(ratings, followed);
  }

  /** Ratings in the same group with the same time keep their original order. */
  lemma SortedRatingsStable(ratings: seq<Rating>, followed: seq<string>)
    requires NoDup(ratings)
    ensures var r := SortedRatings(ratings, followed);
      forall i, j :: 0 <= i < j < |r| && FollowedRating(followed, r[i]) == FollowedRating(followed, r[j])
                     && r[i].createdAt == r[j].createdAt ==>
        r[i] in ratings && r[j] in ratings && FirstIndex(ratings, r[i]) < FirstIndex(ratings, r[j])
  {
    SortByStable(ratings, RatingOrder(followed));
  }

  /** The rating was written by the signed-in reader; no one matches when
      nobody is signed in. */
  predicate ByReader(r: Rating, email: Option<string>)
  {
    r.user.Some? && email.Some? && r.user.value.email == email.value
  }

  /** The position `ratings.find(...)` stops at: the first rating by the
      signed-in reader, if any. */
  function ReaderRatingIndex(ratings: seq<Rating>, email: Option<string>): (r: Option<nat>)
    ensures r.Some? ==> r.value < |ratings| && ByReader(ratings[r.value], email)
    ensures r.Some? ==> forall j :: 0 <= j < r.value ==> !ByReader(ratings[j], email)
    ensures r.None? <==> forall j :: 0 <= j < |ratings| ==> !ByReader(ratings[j], email)
  {
    if ratings == [] then None
    else if ByReader(ratings[0], email) then Some(0)
    else
      var rest := ReaderRatingIndex(ratings[1..], email);
      if rest.None? then
        assert forall j :: 1 <= j < |ratings| ==> ratings[j] == ratings[1..][j - 1];
        None
      else Some(rest.value + 1)
  }

  // ---------------------------------------------------------------
  // The share dialog's follower filter
  // ---------------------------------------------------------------

  datatype FollowUser = FollowUser(id: string, username: string)

  /** `users.filter(u => u.username.toLowerCase().includes(text.toLowerCase()))`. */
  function UsernameMatches(users: seq<FollowUser>, text: string): (r: seq<FollowUser>)
    ensures forall u :: u in r <==> u in users && IncludesIgnoringCase(u.username, text)
    ensures |r| <= |users|
  {
    if users == [] then []
    else
      assert forall u :: u in users <==> u == users[0] || u in users[1..];
      if IncludesIgnoringCase(users[0].username, text) then [users[0]] + UsernameMatches(users[1..], text)
      else UsernameMatches(users[1..], text)
  }

  /** The followers listed while typing: all of them for blank text, those
      whose username contains the text ignoring case otherwise. */
  function ShareMatches(users: seq<FollowUser>, text: string): (r: seq<FollowUser>)
    ensures Trim(text) == [] ==> r == users
    ensures Trim(text) != [] ==>
      forall u :: u in r <==> u in users && Contains(Lower(u.username), Lower(text))
  {
    if Trim(text) == [] then users else UsernameMatches(users, text)
  }

  /** `users.find(u => u.id === id)?.username`. */
  function UsernameOf(users: seq<FollowUser>, id: string): (r: Option<string>)
    ensures r.Some? ==> exists u :: u in users && u.id == id && u.username == r.value
    ensures r.None? <==> forall u :: u in users ==> u.id != id
  {
    if users == [] then None
    else
      assert forall u :: u in users <==> u == users[0] || u in users[1..];
      if users[0].id == id then Some(users[0].username) else UsernameOf(users[1..], id)
  }

  const ShareMessagePrefix := "Olha esse livro que eu encontrei: "

  /** A share as sent to the notification endpoint. */
  datatype ShareRequest = ShareRequest(googleBookId: string, toUserId: string, message: string)

  // ---------------------------------------------------------------
  // The page state
  // ---------------------------------------------------------------

  class Page {
    var userRating: int
    var review: string
    var isInHistory: bool
    var followingUsers: seq<FollowUser>
    var filteredUsers: seq<FollowUser>
    var searchUsername: string
    var selectedUser: string
    var shareMessage: string

    constructor()
      ensures userRating == 0 && review == "" && !isInHistory
      ensures followingUsers == [] && filteredUsers == [] && searchUsername == "" && selectedUser == "" && shareMessage == ""
    {
      userRating, review, isInHistory := 0, "", false;
      followingUsers, filteredUsers := [], [];
      searchUsername, selectedUser, shareMessage := "", "", "";
    }

    /** The part of `fetchData` that reads the book's ratings: the signed-in
        reader's first rating fills the rating, the review (missing becomes
        empty) and the history flag; without one all three are reset. */
    method LoadReaderRating(ratings: seq<Rating>, email: Option<string>)
      modifies this`userRating, this`review, this`isInHistory
      ensures var k := ReaderRatingIndex(ratings, email);
        && (k.Some? ==> userRating == ratings[k.value].rating && review == ratings[k.value].review.GetOr("") && isInHistory)
        && (k.None? ==> userRating == 0 && review == "" && !isInHistory)
    {
      if |ratings| > 0 {
        var k := ReaderRatingIndex(ratings, email);
        if k.Some? {
          userRating := ratings[k.value].rating;
          review := ratings[k.value].review.GetOr("");
          isInHistory := true;
        } else {
          userRating, review, isInHistory := 0, "", false;
        }
      } else {
        userRating, review, isInHistory := 0, "", false;
      }
    }

    /** `handleAddToHistory`: without a book or with rating 0 nothing is sent
        and nothing changes; otherwise the rating and review are sent, and
        the book is in the history once the request `succeeded`. */
    method AddToHistory(hasBook: bool, succeeded: bool) returns (sent: Option<(int, string)>)
      modifies this`isInHistory
      ensures sent.Some? <==> hasBook && userRating != 0
      ensures sent.Some? ==> sent.value == (userRating, review)
      ensures isInHistory == (old(isInHistory) || (sent.Some? && succeeded))
    {
      if !hasBook || userRating == 0 {
        return None;
      }
      sent := Some((userRating, review));
      if succeeded {
        isInHistory := true;
      }
    }

    /** `handleRemoveFromHistory`: a successful removal resets the rating,
        the review and the history flag; a failed one changes nothing. */
    method RemoveFromHistory(hasBook: bool, succeeded: bool) returns (sent: bool)
      modifies this`userRating, this`review, this`isInHistory
      ensures sent <==> hasBook
      ensures sent && succeeded ==> userRating == 0 && review == "" && !isInHistory
      ensures !(sent && succeeded) ==>
        userRating == old(userRating) && review == old(review) && isInHistory == old(isInHistory)
    {
      if !hasBook {
        return false;
      }
      sent := true;
      if succeeded {
        isInHistory := false;
        userRating := 0;
        review := "";
      }
    }

    /** The follower list arrives: everyone is shown. */
    method LoadFollowing(users: seq<FollowUser>)
      modifies this`followingUsers, this`filteredUsers
      ensures followingUsers == users && filteredUsers == users
    {
      followingUsers := users;
      filteredUsers := users;
    }

    /** Typing in the share dialog's search box. The list is recomputed
        unless the text is exactly the selected follower's name; blank text
        also drops the selection. */
    method SearchChange(value: string)
      modifies this`searchUsername, this`filteredUsers, this`selectedUser
      ensures searchUsername == value
      ensures filteredUsers ==
        if old(selectedUser) == "" || UsernameOf(followingUsers, old(selectedUser)) != Some(value)
        then ShareMatches(followingUsers, value) else old(filteredUsers)
      ensures selectedUser == if Trim(value) == [] then "" else old(selectedUser)
    {
      searchUsername := value;
      if selectedUser == "" || UsernameOf(followingUsers, selectedUser) != Some(value) {
        if Trim(value) == [] {
          filteredUsers := followingUsers;
        } else {
          filteredUsers := UsernameMatches(followingUsers, value);
        }
      }
      if Trim(value) == [] {
        selectedUser := "";
      }
    }

    /** Clicking the search box without a selection lists the matches of the
        current text, or everyone when the text is empty. */
    method SearchClick()
      modifies this`filteredUsers
      ensures selectedUser == "" && searchUsername != "" ==> filteredUsers == UsernameMatches(followingUsers, searchUsername)
      ensures selectedUser == "" && searchUsername == "" ==> filteredUsers == followingUsers
      ensures selectedUser != "" ==> filteredUsers == old(filteredUsers)
    {
      if selectedUser == "" {
        if searchUsername != "" {
          filteredUsers := UsernameMatches(followingUsers, searchUsername);
        } else {
          filteredUsers := followingUsers;
        }
      }
    }

    /** `handleUserSelect`: the follower is chosen and the list is hidden. */
    method SelectUser(id: string, username: string)
      modifies this`selectedUser, this`searchUsername, this`filteredUsers
      ensures selectedUser == id && searchUsername == username && filteredUsers == []
    {
      selectedUser := id;
      searchUsername := username;
      filteredUsers := [];
    }

    /** `resetShareModalState`. */
    method ResetShare()
      modifies this`searchUsername, this`selectedUser, this`shareMessage, this`filteredUsers
      ensures searchUsername == "" && selectedUser == "" && shareMessage == ""
      ensures filteredUsers == followingUsers
    {
      searchUsername := "";
      selectedUser := "";
      shareMessage := "";
      filteredUsers := followingUsers;
    }

    /** `handleShareBook` for a book with id `googleBookId` and `title`:
        nothing is sent without a book or a chosen follower; an empty message
        is replaced by the default one naming the book. A successful share
        resets the dialog. */
    method ShareBook(book: Option<(string, string)>, succeeded: bool) returns (sent: Option<ShareRequest>)
      modifies this`searchUsername, this`selectedUser, this`shareMessage, this`filteredUsers
      ensures sent.Some? <==> book.Some? && old(selectedUser) != ""
      ensures sent.Some? ==>
        && sent.value.googleBookId == book.value.0
        && sent.value.toUserId == old(selectedUser)
        && sent.value.message == (if old(shareMessage) == "" then ShareMessagePrefix + book.value.1 else old(shareMessage))
      ensures sent.Some? && succeeded ==>
        searchUsername == "" && selectedUser == "" && shareMessage == "" && filteredUsers == followingUsers
      ensures !(sent.Some? && succeeded) ==>
        && searchUsername == old(searchUsername) && selectedUser == old(selectedUser)
        && shareMessage == old(shareMessage) && filteredUsers == old(filteredUsers)
    {
      if book.None? || selectedUser == "" {
        return None;
      }
      var message := if shareMessage == "" then ShareMessagePrefix + book.value.1 else shareMessage;
      sent := Some(ShareRequest(book.value.0, selectedUser, message));
      if succeeded {
        ResetShare();
      }
    }
  }
}
