/** The recipe-list filter set (backend/recipes/filters.py): tag slugs with OR semantics,
    the author, and the favourited / in-cart flags that apply only to a signed-in
    requester. Every filter only removes recipes from the newest-first list. */
module RecipesFilters {
  import opened Seqs
  import opened Common
  import opened UsersModels
  import opened RecipesModels

  /** The query parameters: `tags` may be repeated; `author` is a user id; the two flags
      are absent, true or false (the boolean field reads any other text as absent). */
  datatype ListQuery = ListQuery(tags: seq<string>, author: Option<int>, isFavorited: Option<bool>, isInShoppingCart: Option<bool>)

  /** The answer of the recipe list: the recipes, or the form's field errors. */
  datatype Listing = Listed(recipes: seq<RecipeRow>) | Invalid(errors: seq<FieldError>)

  // ---------------------------------------------------------------- tags

  /** `recipe` is linked to a tag whose slug is one of `slugs` (`tags__slug` in the
      OR of the requested values). */
  predicate TaggedWithAny(links: seq<TagLink>, tagRows: seq<TagRow>, recipe: RecipeId, slugs: seq<string>) {
    exists i, j :: 0 <= i < |links| && 0 <= j < |tagRows| &&
      links[i].recipe == recipe && links[i].tag == tagRows[j].id && tagRows[j].slug in slugs
  }

  /** The tag test: no requested slug keeps everything. */
  function TagTest(links: seq<TagLink>, tagRows: seq<TagRow>, slugs: seq<string>): RecipeRow -> bool {
    (x: RecipeRow) => slugs == [] || TaggedWithAny(links, tagRows, x.id, slugs)
  }

  /** The `tags` filter. */
  function TagsFilter(recipes: seq<RecipeRow>, links: seq<TagLink>, tagRows: seq<TagRow>, slugs: seq<string>)
    : (r: seq<RecipeRow>)
    ensures slugs == [] ==> r == recipes
    ensures forall x :: x in r <==> x in recipes && (slugs == [] || TaggedWithAny(links, tagRows, x.id, slugs))
    ensures IsSubsequence(r, recipes)
  {
    FilterKeepsAll(recipes, TagTest(links, tagRows, []));
    Filter(recipes, TagTest(links, tagRows, slugs))
  }

  /** OR semantics: asking for the slugs of `a` and of `b` together keeps exactly the
      recipes kept for `a` or for `b`. */
  lemma TagsFilterIsUnion(recipes: seq<RecipeRow>, links: seq<TagLink>, tagRows: seq<TagRow>, a: seq<string>, b: seq<string>)
    requires a != [] && b != []
    ensures forall x :: x in TagsFilter(recipes, links, tagRows, a + b) <==>
      x in TagsFilter(recipes, links, tagRows, a) || x in TagsFilter(recipes, links, tagRows, b)
  {
    forall x: RecipeRow
      ensures TaggedWithAny(links, tagRows, x.id, a + b) <==>
        TaggedWithAny(links, tagRows, x.id, a) || TaggedWithAny(links, tagRows, x.id, b)
    {
      if TaggedWithAny(links, tagRows, x.id, a + b) {
        var i, j :| 0 <= i < |links| && 0 <= j < |tagRows| &&
          links[i].recipe == x.id && links[i].tag == tagRows[j].id && tagRows[j].slug in a + b;
        assert tagRows[j].slug in a || tagRows[j].slug in b;
      }
    }
  }

  /** The recipes tagged once each, with tag `k` on recipe `k` (the shape of the
      single-tag listing). */
  predicate OneTagEach(recipes: seq<RecipeRow>, tagRows: seq<TagRow>, links: seq<TagLink>) {
    && |recipes| == |tagRows| == |links|
    && (forall i, j :: 0 <= i < j < |recipes| ==> recipes[i].id != recipes[j].id)
    && (forall k :: 0 <= k < |links| ==> links[k] == TagLink(recipes[k].id, tagRows[k].id))
  }

  /** With one tag per recipe and distinct slugs, the slug of tag `m` selects recipe `m`
      alone. */
  lemma TagsFilterPicksOne(recipes: seq<RecipeRow>, tagRows: seq<TagRow>, links: seq<TagLink>, m: nat)
    requires OneTagEach(recipes, tagRows, links) && TagsValid(tagRows) && m < |recipes|
    ensures TagsFilter(recipes, links, tagRows, [tagRows[m].slug]) == recipes[m..m + 1]
  {
    var slugs := [tagRows[m].slug];
    var keep := TagTest(links, tagRows, slugs);
    forall k | 0 <= k < |recipes| ensures keep(recipes[k]) <==> m <= k < m + 1 {
      if k == m {
        assert links[m].recipe == recipes[m].id && links[m].tag == tagRows[m].id;
      }
      if keep(recipes[k]) {
        var i, j :| 0 <= i < |links| && 0 <= j < |tagRows| &&
          links[i].recipe == recipes[k].id && links[i].tag == tagRows[j].id && tagRows[j].slug in slugs;
        assert links[i] == TagLink(recipes[i].id, tagRows[i].id);
        assert i == k;
        assert j == i;
        assert tagRows[j].slug == tagRows[m].slug;
      }
    }
    FilterBlock(recipes, keep, m, m + 1);
  }

  // ---------------------------------------------------------------- author

  function AuthorTest(author: Option<int>): RecipeRow -> bool {
    (x: RecipeRow) => author.None? || x.author == author.value
  }

  /** The `author` filter. */
  function AuthorFilter(recipes: seq<RecipeRow>, author: Option<int>): (r: seq<RecipeRow>)
    ensures author.None? ==> r == recipes
    ensures forall x :: x in r <==> x in recipes && (author.None? || x.author == author.value)
    ensures IsSubsequence(r, recipes)
  {
    FilterKeepsAll(recipes, AuthorTest(None));
    Filter(recipes, AuthorTest(author))
  }

  // ---------------------------------------------------------------- flags

  /** `value and user_id`: the flag is set and the requester has a (non-zero) id. */
  predicate FlagActive(requester: Option<UserId>, value: Option<bool>) {
    value == Some(true) && requester.Some? && requester.value != 0
  }

  /** A recipe passes the flag when the flag is inactive or the requester's row exists. */
  predicate FlagHolds(rows: seq<UserRecipe>, requester: Option<UserId>, value: Option<bool>, recipe: RecipeId) {
    FlagActive(requester, value) ==> UserRecipe(requester.value, recipe) in rows
  }

  function FlagTest(rows: seq<UserRecipe>, requester: Option<UserId>, value: Option<bool>): RecipeRow -> bool {
    (x: RecipeRow) => FlagHolds(rows, requester, value, x.id)
  }

  /** `filter_favorited` over the Favorite table and `filter_shopping_cart` over the
      ShoppingCart table. */
  function FlagFilter(recipes: seq<RecipeRow>, rows: seq<UserRecipe>, requester: Option<UserId>, value: Option<bool>)
    : (r: seq<RecipeRow>)
    ensures !FlagActive(requester, value) ==> r == recipes
    ensures FlagActive(requester, value) ==>
      forall x :: x in r <==> x in recipes && UserRecipe(requester.value, x.id) in rows
    ensures IsSubsequence(r, recipes)
  {
    if !FlagActive(requester, value) then
      FilterKeepsAll(recipes, FlagTest(rows, requester, value));
      Filter(recipes, FlagTest(rows, requester, value))
    else Filter(recipes, FlagTest(rows, requester, value))
  }

  // ---------------------------------------------------------------- the filter set

  predicate UnknownSlug(tagRows: seq<TagRow>, slugs: seq<string>) {
    exists v :: v in slugs && forall j :: 0 <= j < |tagRows| ==> tagRows[j].slug != v
  }

  predicate UnknownAuthor(users: seq<User>, author: Option<int>) {
    author.Some? && forall k :: 0 <= k < |users| ==> users[k].id != author.value
  }

  /** The form's errors, in field order: a slug naming no tag and an id naming no user
      are each an invalid choice. */
  function FilterErrors(tagRows: seq<TagRow>, users: seq<User>, q: ListQuery): (r: seq<FieldError>)
    ensures r == [] <==> !UnknownSlug(tagRows, q.tags) && !UnknownAuthor(users, q.author)
    ensures FieldError("tags", UnknownChoice) in r <==> UnknownSlug(tagRows, q.tags)
    ensures FieldError("author", UnknownChoice) in r <==> UnknownAuthor(users, q.author)
    ensures forall k :: 0 <= k < |r| ==> r[k].reason == UnknownChoice
  {
    (if UnknownSlug(tagRows, q.tags) then [FieldError("tags", UnknownChoice)] else []) +
    (if UnknownAuthor(users, q.author) then [FieldError("author", UnknownChoice)] else [])
  }

  /** The recipes the filter set selects: every active filter holds. */
  predicate Selected(links: seq<TagLink>, tagRows: seq<TagRow>, favorites: seq<UserRecipe>, carts: seq<UserRecipe>,
                     requester: Option<UserId>, q: ListQuery, x: RecipeRow) {
    && (q.tags == [] || TaggedWithAny(links, tagRows, x.id, q.tags))
    && (q.author.None? || x.author == q.author.value)
    && FlagHolds(favorites, requester, q.isFavorited, x.id)
    && FlagHolds(carts, requester, q.isInShoppingCart, x.id)
  }

  /** `RecipeFilter` applied to the recipe list: refused with the field errors, or the
      filters applied one after the other in declaration order. */
  function RecipeList(recipes: seq<RecipeRow>, links: seq<TagLink>, tagRows: seq<TagRow>, users: seq<User>,
                      favorites: seq<UserRecipe>, carts: seq<UserRecipe>, requester: Option<UserId>, q: ListQuery)
    : (r: Listing)
    ensures r.Invalid? <==> FilterErrors(tagRows, users, q) != []
    ensures r.Invalid? ==> r.errors == FilterErrors(tagRows, users, q)
  {
    var errors := FilterErrors(tagRows, users, q);
    if errors != [] then Invalid(errors)
    else
      var tagged := TagsFilter(recipes, links, tagRows, q.tags);
      var authored := AuthorFilter(tagged, q.author);
      var favorited := FlagFilter(authored, favorites, requester, q.isFavorited);
      Listed(FlagFilter(favorited, carts, requester, q.isInShoppingCart))
  }

  function TagsAndAuthorTest(links: seq<TagLink>, tagRows: seq<TagRow>, q: ListQuery): RecipeRow -> bool {
    (x: RecipeRow) => TagTest(links, tagRows, q.tags)(x) && AuthorTest(q.author)(x)
  }

  function AllButCartTest(links: seq<TagLink>, tagRows: seq<TagRow>, favorites: seq<UserRecipe>,
                          requester: Option<UserId>, q: ListQuery): RecipeRow -> bool {
    (x: RecipeRow) => TagsAndAuthorTest(links, tagRows, q)(x) && FlagTest(favorites, requester, q.isFavorited)(x)
  }

  function SelectedTest(links: seq<TagLink>, tagRows: seq<TagRow>, favorites: seq<UserRecipe>, carts: seq<UserRecipe>,
                        requester: Option<UserId>, q: ListQuery): RecipeRow -> bool {
    (x: RecipeRow) => Selected(links, tagRows, favorites, carts, requester, q, x)
  }

  /** The four filters in a row are one filter by `Selected`: the order in which they
      are applied does not matter, and the listing keeps the input's order. */
  lemma {:induction false} RecipeListIsOneFilter(recipes: seq<RecipeRow>, links: seq<TagLink>, tagRows: seq<TagRow>,
                                                 users: seq<User>, favorites: seq<UserRecipe>, carts: seq<UserRecipe>,
                                                 requester: Option<UserId>, q: ListQuery)
    requires FilterErrors(tagRows, users, q) == []
    ensures RecipeList(recipes, links, tagRows, users, favorites, carts, requester, q)
      == Listed(Filter(recipes, SelectedTest(links, tagRows, favorites, carts, requester, q)))
  {
    var t1 := TagTest(links, tagRows, q.tags);
    var t2 := AuthorTest(q.author);
    var t3 := FlagTest(favorites, requester, q.isFavorited);
    var t4 := FlagTest(carts, requester, q.isInShoppingCart);
    var s12 := TagsAndAuthorTest(links, tagRows, q);
    var s123 := AllButCartTest(links, tagRows, favorites, requester, q);
    var all := SelectedTest(links, tagRows, favorites, carts, requester, q);
    assert TagsFilter(recipes, links, tagRows, q.tags) == Filter(recipes, t1);
    FilterTwice(recipes, t1, t2, s12);
    assert AuthorFilter(Filter(recipes, t1), q.author) == Filter(Filter(recipes, t1), t2);
    FilterTwice(recipes, s12, t3, s123);
    assert FlagFilter(Filter(recipes, s12), favorites, requester, q.isFavorited) == Filter(Filter(recipes, s12), t3);
    FilterTwice(recipes, s123, t4, all);
    assert FlagFilter(Filter(recipes, s123), carts, requester, q.isInShoppingCart) == Filter(Filter(recipes, s123), t4);
  }

  /** The listing holds exactly the selected recipes, no recipe twice when the input has
      none twice, in the input's order; a newest-first input gives a newest-first
      listing. */
  lemma RecipeListSelects(recipes: seq<RecipeRow>, links: seq<TagLink>, tagRows: seq<TagRow>, users: seq<User>,
                          favorites: seq<UserRecipe>, carts: seq<UserRecipe>, requester: Option<UserId>, q: ListQuery)
    requires FilterErrors(tagRows, users, q) == []
    ensures var r := RecipeList(recipes, links, tagRows, users, favorites, carts, requester, q);
      && r.Listed?
      && (forall x :: x in r.recipes ==> x in recipes && Selected(links, tagRows, favorites, carts, requester, q, x))
      && (forall x :: x in recipes && Selected(links, tagRows, favorites, carts, requester, q, x) ==> x in r.recipes)
      && IsSubsequence(r.recipes, recipes)
      && (NoDuplicates(recipes) ==> NoDuplicates(r.recipes))
      && (NewestFirst(recipes) ==> NewestFirst(r.recipes))
  {
    RecipeListIsOneFilter(recipes, links, tagRows, users, favorites, carts, requester, q);
    var all := SelectedTest(links, tagRows, favorites, carts, requester, q);
    if NoDuplicates(recipes) { FilterKeepsNoDuplicates(recipes, all); }
    if NewestFirst(recipes) { FilterKeepsOrder(recipes, all, (a: RecipeRow, b: RecipeRow) => a.pubDate >= b.pubDate); }
  }

  /** Flags that are false, absent or sent by an anonymous requester leave the listing
      as the tag and author filters make it. */
  lemma InactiveFlagsChangeNothing(recipes: seq<RecipeRow>, links: seq<TagLink>, tagRows: seq<TagRow>, users: seq<User>,
                                   favorites: seq<UserRecipe>, carts: seq<UserRecipe>, requester: Option<UserId>, q: ListQuery)
    requires FilterErrors(tagRows, users, q) == []
    requires !FlagActive(requester, q.isFavorited) && !FlagActive(requester, q.isInShoppingCart)
    ensures RecipeList(recipes, links, tagRows, users, favorites, carts, requester, q)
      == Listed(AuthorFilter(TagsFilter(recipes, links, tagRows, q.tags), q.author))
  {
  }

  /** With one tag per recipe and distinct slugs, listing by the slug of tag `m` alone
      gives recipe `m` alone. */
  lemma SingleSlugListing(recipes: seq<RecipeRow>, tagRows: seq<TagRow>, links: seq<TagLink>, users: seq<User>,
                          favorites: seq<UserRecipe>, carts: seq<UserRecipe>, requester: Option<UserId>, m: nat)
    requires OneTagEach(recipes, tagRows, links) && TagsValid(tagRows) && m < |recipes|
    ensures RecipeList(recipes, links, tagRows, users, favorites, carts, requester, ListQuery([tagRows[m].slug], None, None, None))
      == Listed(recipes[m..m + 1])
  {
    var q := ListQuery([tagRows[m].slug], None, None, None);
    assert !UnknownSlug(tagRows, q.tags) by {
      forall v | v in q.tags ensures exists j :: 0 <= j < |tagRows| && tagRows[j].slug == v {
        assert tagRows[m].slug == v;
      }
    }
    TagsFilterPicksOne(recipes, tagRows, links, m);
  }

  /** `tags=egg` over eight recipes tagged egg, salt, salmon, mango, sugar, chocolate,
      apple and Hennessy, one tag each, lists one recipe: the egg one. */
  lemma SingleTagListing(recipes: seq<RecipeRow>, tagRows: seq<TagRow>, links: seq<TagLink>, users: seq<User>,
                         favorites: seq<UserRecipe>, carts: seq<UserRecipe>, requester: Option<UserId>)
    requires |tagRows| == 8 && OneTagEach(recipes, tagRows, links) && TagsValid(tagRows)
    requires tagRows[0].slug == "egg" && tagRows[1].slug == "salt" && tagRows[2].slug == "salmon"
    requires tagRows[3].slug == "mango" && tagRows[4].slug == "sugar" && tagRows[5].slug == "chocolate"
    requires tagRows[6].slug == "apple" && tagRows[7].slug == "Hennessy"
    ensures var r := RecipeList(recipes, links, tagRows, users, favorites, carts, requester, ListQuery(["egg"], None, None, None));
      r.Listed? && r.recipes == recipes[0..1] && |r.recipes| == 1
  {
    assert [tagRows[0].slug] == ["egg"];
    SingleSlugListing(recipes, tagRows, links, users, favorites, carts, requester, 0);
  }
}
