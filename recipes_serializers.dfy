/** The recipe write serializer (backend/recipes/serializers.py): validation of the
    submitted ingredients, tags and name, creation of a recipe with its tags and
    ingredient amounts, replace-on-update, and the `is_favorited` /
    `is_in_shopping_cart` fields. */
module RecipesSerializers {
  import opened Seqs
  import opened Common
  import opened UsersModels
  import opened RecipesModels

  // ---------------------------------------------------------------- validate_ingredients

  /** One submitted ingredient: `{'id': ..., 'amount': ...}`; the id may be missing. */
  datatype IngredientEntry = IngredientEntry(id: Option<int>, amount: int)

  /** `Ingredient.objects.filter(id=id).exists()` */
  predicate IngredientExists(ingredients: seq<IngredientRow>, id: int) {
    exists k :: 0 <= k < |ingredients| && ingredients[k].id == id
  }

  /** Entry `k` names the same ingredient as an earlier entry. */
  predicate RepeatsEarlier(entries: seq<IngredientEntry>, k: nat)
    requires k < |entries|
  {
    exists j :: 0 <= j < k && entries[j].id == entries[k].id
  }

  /** What is wrong with entry `k`, checked in the source's order: no id, an unknown id,
      an id already seen, an amount below 1. */
  function EntryFault(entries: seq<IngredientEntry>, k: nat, ingredients: seq<IngredientRow>): Option<Reason>
    requires k < |entries|
  {
    var e := entries[k];
    if e.id.None? then Some(NoIngredientId)
    else if !IngredientExists(ingredients, e.id.value) then Some(UnknownIngredient(e.id.value))
    else if RepeatsEarlier(entries, k) then Some(RepeatedIngredient(e.id.value))
    else if e.amount < 1 then Some(AmountBelowOne(e.id.value))
    else None
  }

  /** The fault of the first faulty entry from `from` on. */
  function FirstFault(entries: seq<IngredientEntry>, ingredients: seq<IngredientRow>, from: nat): (r: Option<Reason>)
    requires from <= |entries|
    ensures r.None? <==> forall k :: from <= k < |entries| ==> EntryFault(entries, k, ingredients).None?
    ensures r.Some? ==> exists k :: (from <= k < |entries| && EntryFault(entries, k, ingredients) == r &&
                                     forall j :: from <= j < k ==> EntryFault(entries, j, ingredients).None?)
    decreases |entries| - from
  {
    if from == |entries| then None
    else if EntryFault(entries, from, ingredients).Some? then EntryFault(entries, from, ingredients)
    else FirstFault(entries, ingredients, from + 1)
  }

  /** The error `validate_ingredients` raises, if any: an empty list, else the first
      faulty entry's fault, all under the key `ingredients`. */
  function IngredientsError(entries: seq<IngredientEntry>, ingredients: seq<IngredientRow>): (e: Option<FieldError>)
    ensures e.Some? ==> e.value.field == "ingredients"
    ensures entries == [] ==> e == Some(FieldError("ingredients", Missing))
  {
    if entries == [] then Some(FieldError("ingredients", Missing))
    else match FirstFault(entries, ingredients, 0)
      case None => None
      case Some(reason) => Some(FieldError("ingredients", reason))
  }

  /** Every entry has an id naming an existing ingredient and an amount of at least 1. */
  predicate EntriesSound(entries: seq<IngredientEntry>, ingredients: seq<IngredientRow>) {
    forall k :: 0 <= k < |entries| ==>
      entries[k].id.Some? && IngredientExists(ingredients, entries[k].id.value) && AtLeastOne(entries[k].amount)
  }

  /** No two entries name the same ingredient. */
  predicate EntriesDistinct(entries: seq<IngredientEntry>) {
    forall i, j :: 0 <= i < j < |entries| ==> entries[i].id != entries[j].id
  }

  /** The ingredients are accepted exactly when the list is non-empty, every entry is
      sound and no ingredient repeats. */
  lemma IngredientsAccepted(entries: seq<IngredientEntry>, ingredients: seq<IngredientRow>)
    ensures IngredientsError(entries, ingredients).None? <==>
      entries != [] && EntriesSound(entries, ingredients) && EntriesDistinct(entries)
  {
    if entries != [] {
      var ok := FirstFault(entries, ingredients, 0).None?;
      if ok {
        forall k | 0 <= k < |entries| ensures entries[k].id.Some? && IngredientExists(ingredients, entries[k].id.value) && AtLeastOne(entries[k].amount) {
          assert EntryFault(entries, k, ingredients).None?;
        }
        forall i, j | 0 <= i < j < |entries| ensures entries[i].id != entries[j].id {
          assert EntryFault(entries, j, ingredients).None?;
          assert !RepeatsEarlier(entries, j);
        }
      }
      if EntriesSound(entries, ingredients) && EntriesDistinct(entries) {
        forall k | 0 <= k < |entries| ensures EntryFault(entries, k, ingredients).None? {
          assert !RepeatsEarlier(entries, k);
        }
      }
    }
  }

  /** When the entries before `i` are sound and entry `i` is not, the error is entry
      `i`'s: the first offending entry decides. */
  lemma FirstOffenderDecides(entries: seq<IngredientEntry>, ingredients: seq<IngredientRow>, i: nat)
    requires i < |entries|
    requires forall k :: 0 <= k < i ==> EntryFault(entries, k, ingredients).None?
    requires EntryFault(entries, i, ingredients).Some?
    ensures IngredientsError(entries, ingredients) == Some(FieldError("ingredients", EntryFault(entries, i, ingredients).value))
  {
    var r := FirstFault(entries, ingredients, 0);
    assert r.Some?;
    var k :| (0 <= k < |entries| && EntryFault(entries, k, ingredients) == r &&
              forall j :: 0 <= j < k ==> EntryFault(entries, j, ingredients).None?);
    if k < i {
      assert false;
    } else if k > i {
      assert false;
    }
  }

  /** `validate_ingredients`: the loop over the entries with its list of ids seen so far;
      on success the entries come back unchanged. */
  method ValidateIngredients(entries: seq<IngredientEntry>, ingredients: seq<IngredientRow>)
    returns (r: Validated<seq<IngredientEntry>>)
    ensures IngredientsError(entries, ingredients).Some? ==> r == Rejected(IngredientsError(entries, ingredients).value)
    ensures IngredientsError(entries, ingredients).None? ==> r == Accepted(entries)
  {
    if |entries| == 0 {
      return Rejected(FieldError("ingredients", Missing));
    }
    var unique: seq<int> := [];
    var i := 0;
    while i < |entries|
      invariant 0 <= i <= |entries|
      invariant forall k :: 0 <= k < i ==> EntryFault(entries, k, ingredients).None?
      invariant |unique| == i
      invariant forall k :: 0 <= k < i ==> entries[k].id == Some(unique[k])
    {
      var id := entries[i].id;
      if id.None? {
        FirstOffenderDecides(entries, ingredients, i);
        return Rejected(FieldError("ingredients", NoIngredientId));
      }
      if !IngredientExists(ingredients, id.value) {
        FirstOffenderDecides(entries, ingredients, i);
        return Rejected(FieldError("ingredients", UnknownIngredient(id.value)));
      }
      if id.value in unique {
        var j :| 0 <= j < |unique| && unique[j] == id.value;
        assert entries[j].id == entries[i].id;
        FirstOffenderDecides(entries, ingredients, i);
        return Rejected(FieldError("ingredients", RepeatedIngredient(id.value)));
      }
      assert !RepeatsEarlier(entries, i) by {
        forall j | 0 <= j < i ensures entries[j].id != entries[i].id {
          assert unique[j] in unique;
        }
      }
      unique := unique + [id.value];
      if entries[i].amount < 1 {
        FirstOffenderDecides(entries, ingredients, i);
        return Rejected(FieldError("ingredients", AmountBelowOne(id.value)));
      }
      i := i + 1;
    }
    return Accepted(entries);
  }

  // ---------------------------------------------------------------- validate_tags

  /** `validate_tags`: an empty list, or one whose set is smaller than the list, is
      refused; otherwise the list comes back unchanged. */
  function ValidateTags(tags: seq<TagId>): (r: Validated<seq<TagId>>)
    ensures r.Accepted? ==> r.value == tags
  {
    if tags == [] then Rejected(FieldError("tags", Missing))
    else if |tags| != |ToSet(tags)| then Rejected(FieldError("tags", RepeatedTags))
    else Accepted(tags)
  }

  /** The tags are accepted exactly when there is at least one and none repeats. */
  lemma TagsAccepted(tags: seq<TagId>)
    ensures ValidateTags(tags).Accepted? <==> tags != [] && NoDuplicates(tags)
    ensures ValidateTags(tags).Rejected? ==>
      ValidateTags(tags).error == FieldError("tags", if tags == [] then Missing else RepeatedTags)
  {
    ToSetSize(tags);
  }

  // ---------------------------------------------------------------- validate

  /** The author already has a recipe called `name`, other than the one being edited. */
  predicate NameClash(recipes: seq<RecipeRow>, author: UserId, name: string, editing: Option<RecipeId>) {
    exists k :: 0 <= k < |recipes| && recipes[k].author == author && recipes[k].name == name &&
      (editing.None? || recipes[k].id != editing.value)
  }

  /** `validate`: refuses a name the author already uses, leaving out the recipe being
      edited on update. A request without a name matches no recipe. */
  function NameError(recipes: seq<RecipeRow>, author: UserId, name: Option<string>, editing: Option<RecipeId>)
    : (e: Option<FieldError>)
    ensures e.None? <==> name.None? || !NameClash(recipes, author, name.value, editing)
    ensures e.Some? ==> e.value == FieldError("error", NameTaken)
  {
    if name.Some? && NameClash(recipes, author, name.value, editing) then Some(FieldError("error", NameTaken))
    else None
  }

  /** A name that passes `validate` on create keeps (name, author) unique once the new
      recipe is stored. */
  lemma CreateKeepsNamesUnique(recipes: seq<RecipeRow>, row: RecipeRow)
    requires RecipesValid(recipes) && row.name != [] && AtLeastOne(row.cookingTime)
    requires forall k :: 0 <= k < |recipes| ==> recipes[k].id != row.id
    requires NameError(recipes, row.author, Some(row.name), None).None?
    ensures RecipesValid(recipes + [row])
  {
    var s := recipes + [row];
    forall i, j | 0 <= i < j < |s| ensures s[i].name != s[j].name || s[i].author != s[j].author {
      if j == |recipes| {
        assert s[i] == recipes[i];
      }
    }
  }

  /** A name that passes `validate` on update keeps (name, author) unique once the edited
      row replaces the old one. */
  lemma UpdateKeepsNamesUnique(recipes: seq<RecipeRow>, k: nat, row: RecipeRow)
    requires RecipesValid(recipes) && k < |recipes| && row.id == recipes[k].id
    requires row.name != [] && AtLeastOne(row.cookingTime)
    requires NameError(recipes, row.author, Some(row.name), Some(row.id)).None?
    ensures RecipesValid(recipes[k := row])
  {
    var s := recipes[k := row];
    forall i, j | 0 <= i < j < |s| ensures s[i].name != s[j].name || s[i].author != s[j].author {
      if i == k {
        assert s[j] == recipes[j] && recipes[j].id != recipes[k].id;
      } else if j == k {
        assert s[i] == recipes[i] && recipes[i].id != recipes[k].id;
      }
    }
    forall i, j | 0 <= i < j < |s| ensures s[i].id != s[j].id {
      if i == k || j == k {
        assert recipes[i].id != recipes[j].id;
      }
    }
  }

  // ---------------------------------------------------------------- create and update

  /** Every entry has a non-negative id, as every entry naming an existing ingredient has. */
  predicate Identified(entries: seq<IngredientEntry>) {
    forall k :: 0 <= k < |entries| ==> entries[k].id.Some? && entries[k].id.value >= 0
  }

  lemma SoundEntriesIdentified(entries: seq<IngredientEntry>, ingredients: seq<IngredientRow>)
    requires EntriesSound(entries, ingredients)
    ensures Identified(entries)
  {
    forall k | 0 <= k < |entries| ensures entries[k].id.value >= 0 {
      var j :| 0 <= j < |ingredients| && ingredients[j].id == entries[k].id.value;
    }
  }

  /** The rows `create_ingredient_amount` bulk-creates: one per entry, with its amount. */
  function AmountRowsFor(recipe: RecipeId, entries: seq<IngredientEntry>): (r: seq<AmountRow>)
    requires Identified(entries)
    ensures |r| == |entries|
    ensures forall k :: 0 <= k < |entries| ==>
      r[k].recipe == recipe && r[k].ingredient == entries[k].id.value && r[k].amount == entries[k].amount
  {
    seq(|entries|, k requires 0 <= k < |entries| => AmountRow(recipe, entries[k].id.value as nat, entries[k].amount))
  }

  /** The rows of one recipe. */
  function OfRecipe(recipe: RecipeId): AmountRow -> bool {
    (a: AmountRow) => a.recipe == recipe
  }

  function NotOfRecipe(recipe: RecipeId): AmountRow -> bool {
    (a: AmountRow) => a.recipe != recipe
  }

  /** `recipe.ingredients.clear()`: the recipe's amount rows are deleted. */
  function ClearAmounts(amounts: seq<AmountRow>, recipe: RecipeId): (r: seq<AmountRow>)
    ensures forall a :: a in r <==> a in amounts && a.recipe != recipe
    ensures IsSubsequence(r, amounts)
  {
    Filter(amounts, NotOfRecipe(recipe))
  }

  /** One tag link per tag. */
  function LinksFor(recipe: RecipeId, tags: seq<TagId>): (r: seq<TagLink>)
    ensures |r| == |tags|
    ensures forall k :: 0 <= k < |tags| ==> r[k] == TagLink(recipe, tags[k])
  {
    seq(|tags|, k requires 0 <= k < |tags| => TagLink(recipe, tags[k]))
  }

  function LinkKept(recipe: RecipeId, tags: seq<TagId>): TagLink -> bool {
    (l: TagLink) => l.recipe != recipe || l.tag in tags
  }

  function LinkMissing(links: seq<TagLink>, recipe: RecipeId): TagId -> bool {
    (t: TagId) => TagLink(recipe, t) !in links
  }

  function LinkOfOther(recipe: RecipeId): TagLink -> bool {
    (l: TagLink) => l.recipe != recipe
  }

  /** `recipe.tags.set(tags)`: links to tags no longer wanted are deleted, and the
      wanted tags not yet linked are added, each once. */
  function SetTags(links: seq<TagLink>, recipe: RecipeId, tags: seq<TagId>): seq<TagLink> {
    Filter(links, LinkKept(recipe, tags)) + LinksFor(recipe, Dedup(Filter(tags, LinkMissing(links, recipe))))
  }

  /** `recipe.tags.clear()` */
  function ClearTags(links: seq<TagLink>, recipe: RecipeId): (r: seq<TagLink>)
    ensures forall l :: l in r <==> l in links && l.recipe != recipe
    ensures IsSubsequence(r, links)
  {
    Filter(links, LinkOfOther(recipe))
  }

  /** After `set`, the recipe is linked to exactly the given tags, other recipes' links
      are as before, and no link is stored twice. */
  lemma SetTagsLinks(links: seq<TagLink>, recipe: RecipeId, tags: seq<TagId>)
    ensures forall t :: TagLink(recipe, t) in SetTags(links, recipe, tags) ==> t in tags
    ensures forall t :: t in tags ==> TagLink(recipe, t) in SetTags(links, recipe, tags)
    ensures forall l :: l in SetTags(links, recipe, tags) && l.recipe != recipe ==> l in links
    ensures forall l :: l in links && l.recipe != recipe ==> l in SetTags(links, recipe, tags)
    ensures NoDuplicates(links) ==> NoDuplicates(SetTags(links, recipe, tags))
  {
    var kept := Filter(links, LinkKept(recipe, tags));
    var added := Dedup(Filter(tags, LinkMissing(links, recipe)));
    var newer := LinksFor(recipe, added);
    assert SetTags(links, recipe, tags) == kept + newer;
    forall t | TagLink(recipe, t) in kept + newer ensures t in tags {
      if TagLink(recipe, t) in newer {
        var k :| 0 <= k < |newer| && newer[k] == TagLink(recipe, t);
        assert added[k] in added;
      }
    }
    forall t | t in tags ensures TagLink(recipe, t) in kept + newer {
      if TagLink(recipe, t) !in links {
        assert t in added;
        var k :| 0 <= k < |added| && added[k] == t;
        assert newer[k] == TagLink(recipe, t);
      }
    }
    assert forall k :: 0 <= k < |newer| ==> newer[k].recipe == recipe;
    assert forall k :: 0 <= k < |newer| ==> newer[k] !in links by {
      forall k | 0 <= k < |newer| ensures newer[k] !in links {
        assert added[k] in added;
      }
    }
    if NoDuplicates(links) {
      FilterKeepsNoDuplicates(links, LinkKept(recipe, tags));
      assert NoDuplicates(newer) by {
        forall i, j | 0 <= i < j < |newer| ensures newer[i] != newer[j] {
          assert added[i] != added[j];
        }
      }
      forall i | 0 <= i < |kept| ensures kept[i] !in newer {
        assert kept[i] in kept && kept[i] in links;
      }
      NoDuplicatesAppend(kept, newer);
    }
  }

  /** Clearing and then setting leaves the other recipes' links followed by one link per
      distinct tag. */
  lemma ClearThenSetTags(links: seq<TagLink>, recipe: RecipeId, tags: seq<TagId>)
    ensures SetTags(ClearTags(links, recipe), recipe, tags) == ClearTags(links, recipe) + LinksFor(recipe, Dedup(tags))
  {
    var cleared := ClearTags(links, recipe);
    assert forall k :: 0 <= k < |cleared| ==> cleared[k] in cleared;
    FilterKeepsAll(cleared, LinkKept(recipe, tags));
    forall k | 0 <= k < |tags| ensures LinkMissing(cleared, recipe)(tags[k]) {
      if TagLink(recipe, tags[k]) in cleared { assert false; }
    }
    FilterKeepsAll(tags, LinkMissing(cleared, recipe));
  }

  /** Replacing a recipe's amount rows leaves it exactly the new rows and every other
      recipe its old ones. */
  lemma ReplaceAmounts(amounts: seq<AmountRow>, recipe: RecipeId, entries: seq<IngredientEntry>)
    requires Identified(entries)
    ensures var r := ClearAmounts(amounts, recipe) + AmountRowsFor(recipe, entries);
      && Filter(r, OfRecipe(recipe)) == AmountRowsFor(recipe, entries)
      && forall other :: other != recipe ==> Filter(r, OfRecipe(other)) == Filter(amounts, OfRecipe(other))
  {
    var cleared := ClearAmounts(amounts, recipe);
    var newer := AmountRowsFor(recipe, entries);
    FilterAppend(cleared, newer, OfRecipe(recipe));
    assert forall k :: 0 <= k < |cleared| ==> cleared[k] in cleared;
    FilterKeepsNone(cleared, OfRecipe(recipe));
    FilterKeepsAll(newer, OfRecipe(recipe));
    forall other | other != recipe
      ensures Filter(cleared + newer, OfRecipe(other)) == Filter(amounts, OfRecipe(other))
    {
      FilterAppend(cleared, newer, OfRecipe(other));
      FilterKeepsNone(newer, OfRecipe(other));
      FilterTwice(amounts, NotOfRecipe(recipe), OfRecipe(other), OfRecipe(other));
    }
  }

  /** New rows for a recipe that had none are exactly that recipe's rows afterwards. */
  lemma CreateAmounts(amounts: seq<AmountRow>, recipe: RecipeId, entries: seq<IngredientEntry>)
    requires Identified(entries)
    requires forall k :: 0 <= k < |amounts| ==> amounts[k].recipe != recipe
    ensures Filter(amounts + AmountRowsFor(recipe, entries), OfRecipe(recipe)) == AmountRowsFor(recipe, entries)
  {
    FilterAppend(amounts, AmountRowsFor(recipe, entries), OfRecipe(recipe));
    FilterKeepsNone(amounts, OfRecipe(recipe));
    FilterKeepsAll(AmountRowsFor(recipe, entries), OfRecipe(recipe));
  }

  /** Validated entries appended for a recipe without rows keep the amount table's
      constraints. */
  lemma AmountRowsKeepValid(amounts: seq<AmountRow>, recipe: RecipeId, entries: seq<IngredientEntry>, ingredients: seq<IngredientRow>)
    requires AmountsValid(amounts) && EntriesSound(entries, ingredients) && EntriesDistinct(entries)
    requires forall k :: 0 <= k < |amounts| ==> amounts[k].recipe != recipe
    ensures Identified(entries)
    ensures AmountsValid(amounts + AmountRowsFor(recipe, entries))
  {
    SoundEntriesIdentified(entries, ingredients);
    var newer := AmountRowsFor(recipe, entries);
    var s := amounts + newer;
    forall i, j | 0 <= i < j < |s| ensures s[i].recipe != s[j].recipe || s[i].ingredient != s[j].ingredient {
      if i >= |amounts| {
        assert s[i] == newer[i - |amounts|] && s[j] == newer[j - |amounts|];
        assert entries[i - |amounts|].id != entries[j - |amounts|].id;
      } else if j >= |amounts| {
        assert s[j] == newer[j - |amounts|];
      }
    }
    forall k | 0 <= k < |s| ensures AtLeastOne(s[k].amount) {
      if k >= |amounts| { assert s[k] == newer[k - |amounts|]; }
    }
  }

  /** The recipe, amount and tag-link tables together, with every amount row and every
      link pointing at an id the recipe table has already handed out. */
  ghost predicate StoreValid(recipes: RecipeTable, amounts: AmountTable, links: TagLinkTable)
    reads recipes, amounts, links
  {
    && recipes.Valid() && amounts.Valid() && links.Valid()
    && (forall k :: 0 <= k < |amounts.rows| ==> amounts.rows[k].recipe < recipes.nextId)
    && (forall k :: 0 <= k < |links.rows| ==> links.rows[k].recipe < recipes.nextId)
  }

  /** `RecipeSerializerModify.create` on validated data: the recipe is stored with a new
      id, its tags are set, and one amount row per entry is created. */
  method Create(recipes: RecipeTable, amounts: AmountTable, links: TagLinkTable, ingredients: seq<IngredientRow>,
                author: UserId, name: string, text: string, cookingTime: int, pubDate: int,
                tags: seq<TagId>, entries: seq<IngredientEntry>)
    returns (id: RecipeId)
    requires StoreValid(recipes, amounts, links)
    requires name != [] && AtLeastOne(cookingTime)
    requires NameError(recipes.rows, author, Some(name), None).None?
    requires EntriesSound(entries, ingredients) && EntriesDistinct(entries)
    modifies recipes, amounts, links
    ensures StoreValid(recipes, amounts, links)
    ensures id == old(recipes.nextId) && recipes.nextId == id + 1
    ensures recipes.rows == old(recipes.rows) + [RecipeRow(id, name, author, text, pubDate, cookingTime)]
    ensures links.rows == SetTags(old(links.rows), id, tags)
    ensures Identified(entries) && amounts.rows == old(amounts.rows) + AmountRowsFor(id, entries)
  {
    id := recipes.nextId;
    var row := RecipeRow(id, name, author, text, pubDate, cookingTime);
    CreateKeepsNamesUnique(recipes.rows, row);
    recipes.rows := recipes.rows + [row];
    recipes.nextId := id + 1;
    SetTagsLinks(links.rows, id, tags);
    links.rows := SetTags(links.rows, id, tags);
    AmountRowsKeepValid(amounts.rows, id, entries, ingredients);
    amounts.rows := amounts.rows + AmountRowsFor(id, entries);
  }

  /** Deleting amount rows keeps the amount table's constraints. */
  lemma FilterKeepsAmountsValid(amounts: seq<AmountRow>, keep: AmountRow -> bool)
    requires AmountsValid(amounts)
    ensures AmountsValid(Filter(amounts, keep))
  {
    var r := Filter(amounts, keep);
    var differ := (a: AmountRow, b: AmountRow) => a.recipe != b.recipe || a.ingredient != b.ingredient;
    assert SortedBy(amounts, differ);
    SubsequenceSorted(r, amounts, differ);
    assert forall k :: 0 <= k < |r| ==> r[k] in amounts;
  }

  /** The recipe row after `ModelSerializer.update`: the fields sent in the request
      replace the stored ones; the id, the author and the publication date stay. */
  function Edited(row: RecipeRow, name: Option<string>, text: Option<string>, cookingTime: Option<int>): (r: RecipeRow)
    ensures r.id == row.id && r.author == row.author && r.pubDate == row.pubDate
    ensures (name.None? ==> r.name == row.name) && (name.Some? ==> r.name == name.value)
    ensures (text.None? ==> r.text == row.text) && (text.Some? ==> r.text == text.value)
    ensures (cookingTime.None? ==> r.cookingTime == row.cookingTime) && (cookingTime.Some? ==> r.cookingTime == cookingTime.value)
  {
    row.(name := if name.Some? then name.value else row.name,
         text := if text.Some? then text.value else row.text,
         cookingTime := if cookingTime.Some? then cookingTime.value else row.cookingTime)
  }

  /** Editing the rows of one recipe with validated fields keeps the recipe table's
      constraints and its ids below the next id. */
  lemma EditKeepsRecipesValid(rows: seq<RecipeRow>, nextId: nat, id: RecipeId, requester: UserId,
                              name: Option<string>, text: Option<string>, cookingTime: Option<int>)
    requires RecipesValid(rows) && forall j :: 0 <= j < |rows| ==> rows[j].id < nextId
    requires exists k :: 0 <= k < |rows| && rows[k].id == id && rows[k].author == requester
    requires name.Some? ==> name.value != []
    requires cookingTime.Some? ==> AtLeastOne(cookingTime.value)
    requires NameError(rows, requester, name, Some(id)).None?
    ensures var r := EditedRows(rows, id, name, text, cookingTime);
      RecipesValid(r) && forall j :: 0 <= j < |r| ==> r[j].id < nextId
  {
    var k :| 0 <= k < |rows| && rows[k].id == id && rows[k].author == requester;
    var edited := Edited(rows[k], name, text, cookingTime);
    assert NameError(rows, requester, Some(edited.name), Some(id)).None?;
    UpdateKeepsNamesUnique(rows, k, edited);
    assert EditedRows(rows, id, name, text, cookingTime) == rows[k := edited];
  }

  /** The recipe rows with the one whose id is `id` edited. */
  function EditedRows(rows: seq<RecipeRow>, id: RecipeId, name: Option<string>, text: Option<string>, cookingTime: Option<int>)
    : (r: seq<RecipeRow>)
    ensures |r| == |rows|
    ensures forall j :: 0 <= j < |rows| ==> r[j] == if rows[j].id == id then Edited(rows[j], name, text, cookingTime) else rows[j]
  {
    seq(|rows|, j requires 0 <= j < |rows| => if rows[j].id == id then Edited(rows[j], name, text, cookingTime) else rows[j])
  }

  /** Clearing and re-setting one recipe's tags keeps the link table free of duplicates
      and pointing at handed-out recipe ids. */
  lemma ResetTagsKeepsLinksValid(links: seq<TagLink>, nextId: nat, id: RecipeId, tags: seq<TagId>)
    requires NoDuplicates(links) && id < nextId
    requires forall j :: 0 <= j < |links| ==> links[j].recipe < nextId
    ensures var r := SetTags(ClearTags(links, id), id, tags);
      NoDuplicates(r) && forall j :: 0 <= j < |r| ==> r[j].recipe < nextId
  {
    var cleared := ClearTags(links, id);
    FilterKeepsNoDuplicates(links, LinkOfOther(id));
    SetTagsLinks(cleared, id, tags);
    var r := SetTags(cleared, id, tags);
    forall j | 0 <= j < |r| ensures r[j].recipe < nextId {
      assert r[j] in r;
      if r[j].recipe != id { assert r[j] in links; }
    }
  }

  /** Replacing one recipe's amount rows by validated entries keeps the amount table's
      constraints and its rows pointing at handed-out recipe ids. */
  lemma ReplaceKeepsAmountsValid(amounts: seq<AmountRow>, nextId: nat, id: RecipeId,
                                 entries: seq<IngredientEntry>, ingredients: seq<IngredientRow>)
    requires AmountsValid(amounts) && id < nextId
    requires forall j :: 0 <= j < |amounts| ==> amounts[j].recipe < nextId
    requires EntriesSound(entries, ingredients) && EntriesDistinct(entries)
    ensures Identified(entries)
    ensures var r := ClearAmounts(amounts, id) + AmountRowsFor(id, entries);
      AmountsValid(r) && forall j :: 0 <= j < |r| ==> r[j].recipe < nextId
  {
    var cleared := ClearAmounts(amounts, id);
    FilterKeepsAmountsValid(amounts, NotOfRecipe(id));
    assert forall j :: 0 <= j < |cleared| ==> cleared[j] in cleared;
    AmountRowsKeepValid(cleared, id, entries, ingredients);
    var r := cleared + AmountRowsFor(id, entries);
    forall j | 0 <= j < |r| ensures r[j].recipe < nextId {
      if j < |cleared| { assert cleared[j] in amounts; }
    }
  }

  /** The field-by-field `setattr` of `update` on the recipe table, then `save()`. */
  method EditRecipe(recipes: RecipeTable, id: RecipeId, requester: UserId,
                    name: Option<string>, text: Option<string>, cookingTime: Option<int>)
    requires recipes.Valid()
    requires exists k :: 0 <= k < |recipes.rows| && recipes.rows[k].id == id && recipes.rows[k].author == requester
    requires name.Some? ==> name.value != []
    requires cookingTime.Some? ==> AtLeastOne(cookingTime.value)
    requires NameError(recipes.rows, requester, name, Some(id)).None?
    modifies recipes
    ensures recipes.Valid() && recipes.nextId == old(recipes.nextId)
    ensures recipes.rows == EditedRows(old(recipes.rows), id, name, text, cookingTime)
  {
    EditKeepsRecipesValid(recipes.rows, recipes.nextId, id, requester, name, text, cookingTime);
    recipes.rows := EditedRows(recipes.rows, id, name, text, cookingTime);
  }

  /** `recipe.tags.clear()` then `recipe.tags.set(tags)` on the link table. */
  method ResetTags(links: TagLinkTable, nextId: nat, id: RecipeId, tags: seq<TagId>)
    requires links.Valid() && id < nextId
    requires forall j :: 0 <= j < |links.rows| ==> links.rows[j].recipe < nextId
    modifies links
    ensures links.Valid() && forall j :: 0 <= j < |links.rows| ==> links.rows[j].recipe < nextId
    ensures links.rows == SetTags(ClearTags(old(links.rows), id), id, tags)
  {
    ResetTagsKeepsLinksValid(links.rows, nextId, id, tags);
    links.rows := SetTags(ClearTags(links.rows, id), id, tags);
  }

  /** `recipe.ingredients.clear()` then `create_ingredient_amount(entries, recipe)` on
      the amount table. */
  method ReplaceIngredients(amounts: AmountTable, nextId: nat, id: RecipeId,
                            entries: seq<IngredientEntry>, ingredients: seq<IngredientRow>)
    requires amounts.Valid() && id < nextId
    requires forall j :: 0 <= j < |amounts.rows| ==> amounts.rows[j].recipe < nextId
    requires EntriesSound(entries, ingredients) && EntriesDistinct(entries)
    modifies amounts
    ensures amounts.Valid() && forall j :: 0 <= j < |amounts.rows| ==> amounts.rows[j].recipe < nextId
    ensures Identified(entries) && amounts.rows == ClearAmounts(old(amounts.rows), id) + AmountRowsFor(id, entries)
  {
    ReplaceKeepsAmountsValid(amounts.rows, nextId, id, entries, ingredients);
    amounts.rows := ClearAmounts(amounts.rows, id) + AmountRowsFor(id, entries);
  }

  /** `RecipeSerializerModify.update` on validated data, sent by the recipe's author:
      the sent fields replace the stored ones; a non-empty tag list clears the recipe's
      tags and sets the new ones; a non-empty ingredient list deletes the recipe's amount
      rows and creates one per entry. An omitted or empty list changes nothing. */
  method Update(recipes: RecipeTable, amounts: AmountTable, links: TagLinkTable, ingredients: seq<IngredientRow>,
                id: RecipeId, requester: UserId, name: Option<string>, text: Option<string>, cookingTime: Option<int>,
                tags: Option<seq<TagId>>, entries: Option<seq<IngredientEntry>>)
    requires StoreValid(recipes, amounts, links)
    requires exists k :: 0 <= k < |recipes.rows| && recipes.rows[k].id == id && recipes.rows[k].author == requester
    requires name.Some? ==> name.value != []
    requires cookingTime.Some? ==> AtLeastOne(cookingTime.value)
    requires NameError(recipes.rows, requester, name, Some(id)).None?
    requires entries.Some? ==> EntriesSound(entries.value, ingredients) && EntriesDistinct(entries.value)
    modifies recipes, amounts, links
    ensures StoreValid(recipes, amounts, links)
    ensures recipes.nextId == old(recipes.nextId) && |recipes.rows| == |old(recipes.rows)|
    ensures recipes.rows == EditedRows(old(recipes.rows), id, name, text, cookingTime)
    ensures links.rows == if tags.Some? && tags.value != [] then SetTags(ClearTags(old(links.rows), id), id, tags.value)
                          else old(links.rows)
    ensures entries.Some? ==> Identified(entries.value)
    ensures amounts.rows == if entries.Some? && entries.value != []
                            then ClearAmounts(old(amounts.rows), id) + AmountRowsFor(id, entries.value)
                            else old(amounts.rows)
  {
    ghost var k :| 0 <= k < |recipes.rows| && recipes.rows[k].id == id;
    assert id < recipes.nextId;
    EditRecipe(recipes, id, requester, name, text, cookingTime);
    if tags.Some? && tags.value != [] {
      ResetTags(links, recipes.nextId, id, tags.value);
    }
    if entries.Some? {
      SoundEntriesIdentified(entries.value, ingredients);
      if entries.value != [] {
        ReplaceIngredients(amounts, recipes.nextId, id, entries.value, ingredients);
      }
    }
  }

  // ---------------------------------------------------------------- read-side flags

  /** `get_is_favorited` over the Favorite table and `get_is_in_shopping_cart` over the
      ShoppingCart table: false for an anonymous requester, otherwise whether the
      requester's row for the recipe exists. */
  function InList(rows: seq<UserRecipe>, requester: Option<UserId>, recipe: RecipeId): (b: bool)
    ensures b <==> requester.Some? && UserRecipe(requester.value, recipe) in rows
  {
    match requester
    case None => false
    case Some(user) => UserRecipe(user, recipe) in rows
  }
}
