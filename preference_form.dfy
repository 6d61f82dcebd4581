/** The preference form's state: liked and disliked tropes, categories and
    authors, the four text inputs, the two suggestion lists and the chosen
    language codes. The handlers are methods of `Form`; the new list values
    they compute are the pure functions below, about which the form's
    invariant (each pair of lists duplicate-free and disjoint) is proved. */
module PreferenceForm {
  import opened Wrappers
  import opened Seqs
  import opened Text

  datatype Trope = Trope(id: string, name: string, description: string, category: string)

  /** An author suggestion as returned by the author search endpoint. */
  datatype AuthorHit = AuthorHit(id: string, name: string)

  /** Which of the two lists a handler acts on; the other list is the opposite one. */
  datatype ListKind = Liked | Disliked

  /** The list a handler targets and the opposite list, after the handler. */
  datatype Pair<T> = Pair(own: seq<T>, other: seq<T>)

  // ---------------------------------------------------------------
  // Tropes, compared by id
  // ---------------------------------------------------------------

  /** `ts.some(t => t.id === id)`. */
  function HasId(ts: seq<Trope>, id: string): (r: bool)
    ensures r <==> exists x :: x in ts && x.id == id
  {
    if ts == [] then false
    else
      assert forall x :: x in ts <==> x == ts[0] || x in ts[1..];
      ts[0].id == id || HasId(ts[1..], id)
  }

  /** `ts.filter(t => t.id !== id)`. */
  function DropId(ts: seq<Trope>, id: string): (r: seq<Trope>)
    ensures forall x {:trigger x in r} :: x in r <==> x in ts && x.id != id
    ensures !HasId(ts, id) ==> r == ts
  {
    if ts == [] then []
    else
      assert forall x :: x in ts <==> x == ts[0] || x in ts[1..];
      if ts[0].id == id then DropId(ts[1..], id)
      else [ts[0]] + DropId(ts[1..], id)
  }

  /** Appending a trope whose id is absent and then filtering that id out
      gives back the list. */
  lemma {:induction false} DropIdSnoc(ts: seq<Trope>, t: Trope)
    requires !HasId(ts, t.id)
    ensures DropId(ts + [t], t.id) == ts
  {
    if ts == [] {
      assert [] + [t] == [t];
      assert DropId([t], t.id) == DropId([], t.id);
    } else {
      assert (ts + [t])[0] == ts[0];
      assert (ts + [t])[1..] == ts[1..] + [t];
      assert !HasId(ts[1..], t.id);
      DropIdSnoc(ts[1..], t);
      assert DropId(ts + [t], t.id) == [ts[0]] + DropId(ts[1..] + [t], t.id);
      assert [ts[0]] + ts[1..] == ts;
    }
  }

  /** No two entries share an id. */
  predicate UniqueIds(ts: seq<Trope>)
  {
    forall i, j :: 0 <= i < j < |ts| ==> ts[i].id != ts[j].id
  }

  lemma {:induction false} DropIdKeepsUnique(ts: seq<Trope>, id: string)
    requires UniqueIds(ts)
    ensures UniqueIds(DropId(ts, id))
  {
    if ts != [] {
      DropIdKeepsUnique(ts[1..], id);
      var rest := DropId(ts[1..], id);
      if ts[0].id != id {
        forall j | 0 <= j < |rest| ensures ts[0].id != rest[j].id {
          assert rest[j] in rest;
          assert rest[j] in ts[1..];
          var k :| 0 <= k < |ts[1..]| && ts[1..][k] == rest[j];
          assert ts[k + 1] == rest[j];
        }
        assert DropId(ts, id) == [ts[0]] + rest;
      }
    }
  }

  /** The invariant of a liked/disliked trope pair: each list free of
      repeated ids, and no id in both. */
  predicate SeparateIds(a: seq<Trope>, b: seq<Trope>)
  {
    UniqueIds(a) && UniqueIds(b) && forall x, y :: x in a && y in b ==> x.id != y.id
  }

  /** `handleToggleTrope(t, kind)` on the targeted list `own` and the
      opposite list `other`: a trope already in `own` (by id) leaves it and
      `other` is untouched; otherwise it is appended to `own` and leaves
      `other`. No other trope moves. */
  function Toggle(own: seq<Trope>, other: seq<Trope>, t: Trope): (r: Pair<Trope>)
    ensures HasId(r.own, t.id) <==> !HasId(own, t.id)
    ensures HasId(own, t.id) ==> r.other == other
    ensures !HasId(own, t.id) ==> t in r.own && !HasId(r.other, t.id)
    ensures forall x: Trope :: x.id != t.id ==> (x in r.own <==> x in own) && (x in r.other <==> x in other)
  {
    if HasId(own, t.id) then Pair(DropId(own, t.id), other)
    else Pair(own + [t], DropId(other, t.id))
  }

  /** Toggling keeps both trope lists duplicate-free and disjoint by id. */
  lemma {:induction false} ToggleKeepsSeparate(own: seq<Trope>, other: seq<Trope>, t: Trope)
    requires SeparateIds(own, other)
    ensures var r := Toggle(own, other, t); SeparateIds(r.own, r.other)
  {
    var r := Toggle(own, other, t);
    if HasId(own, t.id) {
      DropIdKeepsUnique(own, t.id);
    } else {
      DropIdKeepsUnique(other, t.id);
      assert UniqueIds(own + [t]) by {
        forall i, j | 0 <= i < j < |own| + 1 ensures (own + [t])[i].id != (own + [t])[j].id {
          if j == |own| {
            assert own[i] in own;
          }
        }
      }
      forall x, y | x in r.own && y in r.other ensures x.id != y.id {
        assert x in own + [t];
      }
    }
  }

  /** Toggling a trope that is in neither list twice restores both lists. */
  lemma ToggleTwice(own: seq<Trope>, other: seq<Trope>, t: Trope)
    requires !HasId(own, t.id) && !HasId(other, t.id)
    ensures var once := Toggle(own, other, t); Toggle(once.own, once.other, t) == Pair(own, other)
  {
    DropIdSnoc(own, t);
  }

  // ---------------------------------------------------------------
  // Categories and authors, compared by name
  // ---------------------------------------------------------------

  /** The invariant of a liked/disliked name pair. */
  predicate Separate(a: seq<string>, b: seq<string>)
  {
    NoDup(a) && NoDup(b) && forall x :: x in a ==> x !in b
  }

  /** `handleAddCategory` / `handleAddAuthor` on the targeted list `own`:
      the name is trimmed, and a blank one changes nothing. A name not yet in
      `own` joins it at the end and leaves `other`; a name already in `own`
      changes neither list. */
  function AddName(own: seq<string>, other: seq<string>, raw: string): (r: Pair<string>)
    ensures Trim(raw) == [] ==> r == Pair(own, other)
    ensures Trim(raw) != [] ==> Trim(raw) in r.own
    ensures Trim(raw) != [] && Trim(raw) !in own ==> r.own == own + [Trim(raw)] && Trim(raw) !in r.other
    ensures forall x :: x != Trim(raw) ==> (x in r.own <==> x in own) && (x in r.other <==> x in other)
    ensures Trim(raw) in own ==> r == Pair(own, other)
  {
    var name := Trim(raw);
    if name == [] then Pair(own, other)
    else if name in own then Pair(own, other)
    else Pair(own + [name], Without(other, name))
  }

  /** Adding a name keeps both lists duplicate-free and disjoint. */
  lemma {:induction false} AddNameKeepsSeparate(own: seq<string>, other: seq<string>, raw: string)
    requires Separate(own, other)
    ensures var r := AddName(own, other, raw); Separate(r.own, r.other)
  {
    var name := Trim(raw);
    if name != [] && name !in own {
      WithoutKeepsNoDup(other, name);
      assert NoDup(own + [name]) by {
        forall i, j | 0 <= i < j < |own| + 1 ensures (own + [name])[i] != (own + [name])[j] {
          if j == |own| {
            assert own[i] in own;
          }
        }
      }
    }
  }

  /** Adding the same text twice is the same as adding it once. */
  lemma AddNameTwice(own: seq<string>, other: seq<string>, raw: string)
    ensures var once := AddName(own, other, raw); AddName(once.own, once.other, raw) == once
  {
  }

  /** `handleRemoveCategory` / `handleRemoveAuthor`: the name leaves the
      chosen list; the opposite list is not an argument, so it cannot change. */
  function RemoveName(own: seq<string>, name: string): (r: seq<string>)
    ensures name !in r
    ensures forall x :: x != name ==> (x in r <==> x in own)
  {
    Without(own, name)
  }

  /** Removing a name keeps both lists duplicate-free and disjoint. */
  lemma RemoveNameKeepsSeparate(own: seq<string>, other: seq<string>, name: string)
    requires Separate(own, other)
    ensures Separate(RemoveName(own, name), other) && Separate(other, RemoveName(own, name))
  {
    WithoutKeepsNoDup(own, name);
  }

  // ---------------------------------------------------------------
  // Category suggestions and languages
  // ---------------------------------------------------------------

  /** The fixed category list searched by `handleCategorySearch`, in its order. */
  const CommonCategories: seq<string> := [
    "Romance", "Fantasy", "Science Fiction", "Mystery", "Thriller",
    "Horror", "Biography", "History", "Self-Help", "Fiction",
    "Non-Fiction", "Cooking", "Art", "Travel", "Children",
    "Young Adult", "Poetry", "Drama", "Comics", "Graphic Novel"]

  /** The shortest query that is searched at all. */
  const MinQueryLength := 2

  /** The categories of `cats` whose name contains `query` ignoring case, in order. */
  function Matching(cats: seq<string>, query: string): (r: seq<string>)
    ensures forall c :: c in r <==> c in cats && IncludesIgnoringCase(c, query)
    ensures |r| <= |cats|
  {
    if cats == [] then []
    else
      assert forall c :: c in cats <==> c == cats[0] || c in cats[1..];
      if IncludesIgnoringCase(cats[0], query) then [cats[0]] + Matching(cats[1..], query)
      else Matching(cats[1..], query)
  }

  /** Matching keeps the relative order of the list it filters. */
  lemma {:induction false} MatchingAppend(a: seq<string>, b: seq<string>, query: string)
    ensures Matching(a + b, query) == Matching(a, query) + Matching(b, query)
  {
    if a == [] {
      assert a + b == b;
    } else {
      assert (a + b)[0] == a[0];
      assert (a + b)[1..] == a[1..] + b;
      MatchingAppend(a[1..], b, query);
    }
  }

  /** The suggestions shown for a category query: none below two characters,
      otherwise the common categories containing it, ignoring case. */
  function CategorySuggestions(query: string): (r: seq<string>)
    ensures |query| < MinQueryLength ==> r == []
    ensures |query| >= MinQueryLength ==>
      forall c :: c in r <==> c in CommonCategories && Contains(Lower(c), Lower(query))
  {
    if |query| < MinQueryLength then [] else Matching(CommonCategories, query)
  }

  /** The language codes loaded from the stored preferences: a missing list
      becomes Portuguese; a present list, even an empty one, is kept. */
  function InitialLanguages(codes: Option<seq<string>>): (r: seq<string>)
    ensures codes.None? ==> r == ["pt"]
    ensures codes.Some? ==> r == codes.value
  {
    if codes.Some? then codes.value else ["pt"]
  }

  /** The stored preferences handed to the form; an absent field is `None`.
      Categories, authors and languages are already reduced to their names
      and codes. */
  datatype InitialPreferences = InitialPreferences(
    likedTropes: Option<seq<Trope>>, dislikedTropes: Option<seq<Trope>>,
    likedCategories: Option<seq<string>>, dislikedCategories: Option<seq<string>>,
    likedAuthors: Option<seq<string>>, dislikedAuthors: Option<seq<string>>,
    languages: Option<seq<string>>)

  // ---------------------------------------------------------------
  // The form
  // ---------------------------------------------------------------

  class Form {
    var likedTropes: seq<Trope>
    var dislikedTropes: seq<Trope>
    var likedCategories: seq<string>
    var dislikedCategories: seq<string>
    var likedAuthors: seq<string>
    var dislikedAuthors: seq<string>
    var likedCategoryInput: string
    var dislikedCategoryInput: string
    var likedAuthorInput: string
    var dislikedAuthorInput: string
    var categorySearchResults: seq<string>
    var authorSearchResults: seq<AuthorHit>
    var languages: seq<string>

    /** Every liked/disliked pair is duplicate-free and disjoint. */
    predicate Consistent()
      reads this
    {
      && SeparateIds(likedTropes, dislikedTropes)
      && Separate(likedCategories, dislikedCategories)
      && Separate(likedAuthors, dislikedAuthors)
    }

    /** The save button is enabled only while some language is chosen. */
    predicate CanSave()
      reads this
    {
      |languages| > 0
    }

    constructor()
      ensures Consistent() && !CanSave()
      ensures likedTropes == dislikedTropes == []
      ensures likedCategories == dislikedCategories == likedAuthors == dislikedAuthors == []
      ensures likedCategoryInput == dislikedCategoryInput == likedAuthorInput == dislikedAuthorInput == ""
      ensures categorySearchResults == [] && authorSearchResults == [] && languages == []
    {
      likedTropes, dislikedTropes := [], [];
      likedCategories, dislikedCategories := [], [];
      likedAuthors, dislikedAuthors := [], [];
      likedCategoryInput, dislikedCategoryInput := "", "";
      likedAuthorInput, dislikedAuthorInput := "", "";
      categorySearchResults, authorSearchResults := [], [];
      languages := [];
    }

    /** The effect that loads stored preferences: it runs only when they are
        present and no longer loading, copies each field that is present, and
        defaults the languages to Portuguese. */
    method LoadInitial(init: Option<InitialPreferences>, isLoading: bool)
      modifies this`likedTropes, this`dislikedTropes, this`likedCategories, this`dislikedCategories
      modifies this`likedAuthors, this`dislikedAuthors, this`languages
      ensures init.None? || isLoading ==>
        && likedTropes == old(likedTropes) && dislikedTropes == old(dislikedTropes)
        && likedCategories == old(likedCategories) && dislikedCategories == old(dislikedCategories)
        && likedAuthors == old(likedAuthors) && dislikedAuthors == old(dislikedAuthors)
        && languages == old(languages)
      ensures init.Some? && !isLoading ==>
        var p := init.value;
        && likedTropes == p.likedTropes.GetOr(old(likedTropes))
        && dislikedTropes == p.dislikedTropes.GetOr(old(dislikedTropes))
        && likedCategories == p.likedCategories.GetOr(old(likedCategories))
        && dislikedCategories == p.dislikedCategories.GetOr(old(dislikedCategories))
        && likedAuthors == p.likedAuthors.GetOr(old(likedAuthors))
        && dislikedAuthors == p.dislikedAuthors.GetOr(old(dislikedAuthors))
        && languages == InitialLanguages(p.languages)
        && (p.languages.None? ==> CanSave())
    {
      if init.Some? && !isLoading {
        var p := init.value;
        likedTropes := p.likedTropes.GetOr(likedTropes);
        dislikedTropes := p.dislikedTropes.GetOr(dislikedTropes);
        likedCategories := p.likedCategories.GetOr(likedCategories);
        dislikedCategories := p.dislikedCategories.GetOr(dislikedCategories);
        likedAuthors := p.likedAuthors.GetOr(likedAuthors);
        dislikedAuthors := p.dislikedAuthors.GetOr(dislikedAuthors);
        languages := InitialLanguages(p.languages);
      }
    }

    /** `handleToggleTrope`. */
    method ToggleTrope(t: Trope, kind: ListKind)
      modifies this`likedTropes, this`dislikedTropes
      ensures kind == Liked ==> Pair(likedTropes, dislikedTropes) == Toggle(old(likedTropes), old(dislikedTropes), t)
      ensures kind == Disliked ==> Pair(dislikedTropes, likedTropes) == Toggle(old(dislikedTropes), old(likedTropes), t)
      ensures old(SeparateIds(likedTropes, dislikedTropes)) ==> SeparateIds(likedTropes, dislikedTropes)
    {
      if SeparateIds(likedTropes, dislikedTropes) {
        ToggleKeepsSeparate(likedTropes, dislikedTropes, t);
        ToggleKeepsSeparate(dislikedTropes, likedTropes, t);
      }
      if kind == Liked {
        if HasId(likedTropes, t.id) {
          likedTropes := DropId(likedTropes, t.id);
        } else {
          likedTropes := likedTropes + [t];
          dislikedTropes := DropId(dislikedTropes, t.id);
        }
      } else {
        if HasId(dislikedTropes, t.id) {
          dislikedTropes := DropId(dislikedTropes, t.id);
        } else {
          dislikedTropes := dislikedTropes + [t];
          likedTropes := DropId(likedTropes, t.id);
        }
      }
    }

    /** `handleCategorySearch(query, setInput)`: the targeted input takes the
        query and the suggestions are recomputed. */
    method CategorySearch(query: string, kind: ListKind)
      modifies this`likedCategoryInput, this`dislikedCategoryInput, this`categorySearchResults
      ensures kind == Liked ==> likedCategoryInput == query && dislikedCategoryInput == old(dislikedCategoryInput)
      ensures kind == Disliked ==> dislikedCategoryInput == query && likedCategoryInput == old(likedCategoryInput)
      ensures categorySearchResults == CategorySuggestions(query)
    {
      if kind == Liked {
        likedCategoryInput := query;
      } else {
        dislikedCategoryInput := query;
      }
      if |query| < MinQueryLength {
        categorySearchResults := [];
        return;
      }
      categorySearchResults := Matching(CommonCategories, query);
    }

    /** `handleAddCategory`: a blank name changes nothing at all; otherwise
        the lists are updated, only the targeted input is cleared, and the
        suggestions are cleared. */
    method AddCategory(raw: string, kind: ListKind)
      modifies this`likedCategories, this`dislikedCategories
      modifies this`likedCategoryInput, this`dislikedCategoryInput, this`categorySearchResults
      ensures kind == Liked ==> Pair(likedCategories, dislikedCategories) == AddName(old(likedCategories), old(dislikedCategories), raw)
      ensures kind == Disliked ==> Pair(dislikedCategories, likedCategories) == AddName(old(dislikedCategories), old(likedCategories), raw)
      ensures Trim(raw) == [] ==>
        && likedCategoryInput == old(likedCategoryInput) && dislikedCategoryInput == old(dislikedCategoryInput)
        && categorySearchResults == old(categorySearchResults)
      ensures Trim(raw) != [] ==>
        && categorySearchResults == []
        && likedCategoryInput == (if kind == Liked then "" else old(likedCategoryInput))
        && dislikedCategoryInput == (if kind == Disliked then "" else old(dislikedCategoryInput))
      ensures old(Separate(likedCategories, dislikedCategories)) ==> Separate(likedCategories, dislikedCategories)
    {
      if Trim(raw) == [] {
        return;
      }
      if kind == Liked {
        var r := AddName(likedCategories, dislikedCategories, raw);
        if Separate(likedCategories, dislikedCategories) {
          AddNameKeepsSeparate(likedCategories, dislikedCategories, raw);
        }
        likedCategories, dislikedCategories := r.own, r.other;
        likedCategoryInput := "";
      } else {
        var r := AddName(dislikedCategories, likedCategories, raw);
        if Separate(dislikedCategories, likedCategories) {
          AddNameKeepsSeparate(dislikedCategories, likedCategories, raw);
        }
        dislikedCategories, likedCategories := r.own, r.other;
        dislikedCategoryInput := "";
      }
      categorySearchResults := [];
    }

    /** `handleRemoveCategory`: only the chosen list changes. */
    method RemoveCategory(name: string, kind: ListKind)
      modifies this`likedCategories, this`dislikedCategories
      ensures kind == Liked ==> likedCategories == RemoveName(old(likedCategories), name) && dislikedCategories == old(dislikedCategories)
      ensures kind == Disliked ==> dislikedCategories == RemoveName(old(dislikedCategories), name) && likedCategories == old(likedCategories)
      ensures old(Separate(likedCategories, dislikedCategories)) ==> Separate(likedCategories, dislikedCategories)
    {
      if Separate(likedCategories, dislikedCategories) {
        RemoveNameKeepsSeparate(likedCategories, dislikedCategories, name);
        RemoveNameKeepsSeparate(dislikedCategories, likedCategories, name);
      }
      if kind == Liked {
        likedCategories := Without(likedCategories, name);
      } else {
        dislikedCategories := Without(dislikedCategories, name);
      }
    }

    /** `handleAuthorSearch(query, setInput)`: the targeted input takes the
        query; below two characters the suggestions are emptied, otherwise
        `answer` is the search endpoint's reply, and a failed request
        (`None`) leaves the suggestions as they were. */
    method AuthorSearch(query: string, kind: ListKind, answer: Option<seq<AuthorHit>>)
      modifies this`likedAuthorInput, this`dislikedAuthorInput, this`authorSearchResults
      ensures kind == Liked ==> likedAuthorInput == query && dislikedAuthorInput == old(dislikedAuthorInput)
      ensures kind == Disliked ==> dislikedAuthorInput == query && likedAuthorInput == old(likedAuthorInput)
      ensures |query| < MinQueryLength ==> authorSearchResults == []
      ensures |query| >= MinQueryLength ==> authorSearchResults == answer.GetOr(old(authorSearchResults))
    {
      if kind == Liked {
        likedAuthorInput := query;
      } else {
        dislikedAuthorInput := query;
      }
      if |query| < MinQueryLength {
        authorSearchResults := [];
        return;
      }
      if answer.Some? {
        authorSearchResults := answer.value;
      }
    }

    /** `handleAddAuthor`: the same rules as categories, clearing the author
        suggestions. */
    method AddAuthor(raw: string, kind: ListKind)
      modifies this`likedAuthors, this`dislikedAuthors
      modifies this`likedAuthorInput, this`dislikedAuthorInput, this`authorSearchResults
      ensures kind == Liked ==> Pair(likedAuthors, dislikedAuthors) == AddName(old(likedAuthors), old(dislikedAuthors), raw)
      ensures kind == Disliked ==> Pair(dislikedAuthors, likedAuthors) == AddName(old(dislikedAuthors), old(likedAuthors), raw)
      ensures Trim(raw) == [] ==>
        && likedAuthorInput == old(likedAuthorInput) && dislikedAuthorInput == old(dislikedAuthorInput)
        && authorSearchResults == old(authorSearchResults)
      ensures Trim(raw) != [] ==>
        && authorSearchResults == []
        && likedAuthorInput == (if kind == Liked then "" else old(likedAuthorInput))
        && dislikedAuthorInput == (if kind == Disliked then "" else old(dislikedAuthorInput))
      ensures old(Separate(likedAuthors, dislikedAuthors)) ==> Separate(likedAuthors, dislikedAuthors)
    {
      if Trim(raw) == [] {
        return;
      }
      if kind == Liked {
        var r := AddName(likedAuthors, dislikedAuthors, raw);
        if Separate(likedAuthors, dislikedAuthors) {
          AddNameKeepsSeparate(likedAuthors, dislikedAuthors, raw);
        }
        likedAuthors, dislikedAuthors := r.own, r.other;
        likedAuthorInput := "";
      } else {
        var r := AddName(dislikedAuthors, likedAuthors, raw);
        if Separate(dislikedAuthors, likedAuthors) {
          AddNameKeepsSeparate(dislikedAuthors, likedAuthors, raw);
        }
        dislikedAuthors, likedAuthors := r.own, r.other;
        dislikedAuthorInput := "";
      }
      authorSearchResults := [];
    }

    /** `handleRemoveAuthor`: only the chosen list changes. */
    method RemoveAuthor(name: string, kind: ListKind)
      modifies this`likedAuthors, this`dislikedAuthors
      ensures kind == Liked ==> likedAuthors == RemoveName(old(likedAuthors), name) && dislikedAuthors == old(dislikedAuthors)
      ensures kind == Disliked ==> dislikedAuthors == RemoveName(old(dislikedAuthors), name) && likedAuthors == old(likedAuthors)
      ensures old(Separate(likedAuthors, dislikedAuthors)) ==> Separate(likedAuthors, dislikedAuthors)
    {
      if Separate(likedAuthors, dislikedAuthors) {
        RemoveNameKeepsSeparate(likedAuthors, dislikedAuthors, name);
        RemoveNameKeepsSeparate(dislikedAuthors, likedAuthors, name);
      }
      if kind == Liked {
        likedAuthors := Without(likedAuthors, name);
      } else {
        dislikedAuthors := Without(dislikedAuthors, name);
      }
    }

    /** `handleLanguageChange`. */
    method SetLanguages(codes: seq<string>)
      modifies this`languages
      ensures languages == codes
      ensures CanSave() <==> codes != []
    {
      languages := codes;
    }
  }
}
