# Foodgram recipe store in Dafny

A model of the core of the foodgram backend, a Django service for publishing recipes.
Users publish recipes built from ingredients and tags. They follow other authors, keep a
favourites list and a shopping cart, and download a shopping list that adds up the
ingredients of the recipes in the cart.

The ORM is replaced by an explicit store. Each table is a sequence of rows, and a table
the views change is a class whose `rows` field the methods reassign. The model covers:

- the text normalisation of ingredient and tag fields (`clean`);
- the field validators and the table constraints, with a constraint-checked insert;
- the ingredient search with its two-group ordering;
- the favourite / shopping-cart toggle and the subscribe toggle with its self guard;
- the recipe-list filter set;
- recipe write validation, `create`, and replace-on-update;
- the shopping-list aggregation with `SUM(DISTINCT amount)` and its numbered lines;
- the followed-authors query, and the `is_favorited` / `is_in_shopping_cart` /
  `is_subscribed` flags.

Modules follow the source files:

| module | file | source |
|---|---|---|
| `Text` | text.dfy | the ASCII behaviour of `strip`, `lower`, `capitalize`, `istartswith`, `icontains` and `str(n)` |
| `Seqs` | seqs.dfy | sequence helpers that play the role of querysets: `Filter`, `Without`, `Dedup`, `Sum`, `SumDistinct` |
| `Common` | common.dfy | the outcome datatypes: integrity errors, field errors, toggle statuses |
| `UsersModels` | users_models.dfy | backend/users/models.py |
| `UsersViews` | users_views.dfy | backend/users/views.py |
| `RecipesModels` | recipes_models.dfy | backend/recipes/models.py |
| `RecipesViews` | recipes_views.dfy | backend/recipes/views.py |
| `RecipesSerializers` | recipes_serializers.dfy | backend/recipes/serializers.py |
| `RecipesFilters` | recipes_filters.dfy | backend/recipes/filters.py |

The shopping list sums distinct amounts, as the code does: `Sum('amount', distinct=True)`
at backend/recipes/views.py:122. Two cart recipes that each use 200 g of flour give
200 g, not 400 g. A plain sum of the amounts per (name, unit) would give 400 g. Where the
two descriptions differ, the model follows the code: `RecipesViews.FlourExample` proves
the total is 200 while the plain sum is 400.

## Model

| member | source | states |
|---|---|---|
| Text.Capitalize | backend/recipes/models.py:39 | `str.capitalize`: first character upper-cased, the rest lower-cased |
| Text.TrimStart | backend/recipes/models.py:39-40 | drops exactly the leading whitespace: the result is a suffix, the dropped part is all whitespace, the result does not start with whitespace |
| Text.TrimEnd | backend/recipes/models.py:39-40 | drops exactly the trailing whitespace, symmetrically |
| Text.Strip | backend/recipes/models.py:39-40 | the result is no longer than the input and has no whitespace at either end |
| Text.StripIsInfix | backend/recipes/models.py:39-40 | what `strip` leaves is an infix of the input with only whitespace around it |
| Text.StripOfStripped | backend/recipes/models.py:39-40 | `strip` leaves a string with no whitespace at either end unchanged |
| Text.CaseMappingKeepsStripped | backend/recipes/models.py:39-40 | lower-casing or capitalising a stripped string leaves it stripped |
| Text.LowerIdempotent | backend/recipes/models.py:39-40 | `lower(lower(s)) == lower(s)` |
| Text.LowerOfCapitalize | backend/recipes/models.py:39 | capitalising changes a string only up to case |
| Text.CapitalizedShape | backend/recipes/models.py:39 | `s.lower().capitalize()` of a stripped string: still stripped, first character not a lower-case letter, no upper-case letter after it, same letters up to case |
| Text.IContainsAt | backend/recipes/views.py:43 | `icontains` holds iff the query occurs case-insensitively at some offset |
| Text.IStartsWithContains | backend/recipes/views.py:41-43 | every prefix match is also a contains match |
| Text.IContainsChar | backend/recipes/views.py:43 | a one-character query matches iff some character equals it up to case |
| Text.NatToDecimal | backend/recipes/views.py:142-143 | `str(n)`: at least one digit, all digits, no leading zero |
| Text.DecimalRoundTrip | backend/recipes/views.py:142-143 | reading back the printed digits gives the number back |
| RecipesModels.NormaliseName | backend/recipes/models.py:38-39 | a cleaned ingredient name has no outer whitespace, a first character that is not lower-case, no upper-case letter after it, and spells the stripped input up to case |
| RecipesModels.StripLower | backend/recipes/models.py:40 | a cleaned unit (and tag name or slug) has no outer whitespace and no upper-case letter, and agrees with the stripped input up to case, which together pin it down as the lower-cased stripped input |
| RecipesModels.IsValidColor | backend/recipes/models.py:52-62 | defines the colour validator: `#` and six ASCII letters or digits, seven characters in all |
| RecipesModels.ColorCaseInsensitive | backend/recipes/models.py:56-61 | the colour validator accepts a value iff it accepts its lower-cased spelling |
| RecipesModels.IsValidSlug | backend/recipes/models.py:63-73 | defines the slug validator: at least one character, each a letter, digit, `-` or `_` |
| RecipesModels.IngredientsValid | backend/recipes/models.py:16-33 | defines the ingredient table's constraints: distinct ids, (name, unit) unique, neither empty; preserved by `IngredientInsertKeepsValid` |
| RecipesModels.TagsValid | backend/recipes/models.py:44-99 | defines the tag table's constraints: distinct ids; name, colour and slug each unique and non-empty |
| RecipesModels.RecipesValid | backend/recipes/models.py:125-151 | defines what every stored recipe satisfies: distinct ids, (name, author) unique, a non-empty name, and the cooking-time validator |
| RecipesModels.AmountsValid | backend/recipes/models.py:170-190 | defines what every stored amount row satisfies: (recipe, ingredient) unique and the amount validator |
| RecipesModels.NormaliseNameIdempotent | backend/recipes/models.py:39 | cleaning a clean ingredient name changes nothing |
| RecipesModels.StripLowerIdempotent | backend/recipes/models.py:40 | cleaning a clean unit, tag name or slug changes nothing |
| RecipesModels.SalmonExample | backend/recipes/tests.py:57-65 | `" salmon"` is stored as `"Salmon"` |
| RecipesModels.CapitalizedSalmon | backend/recipes/models.py:39 | `"salmon"` and `"SALMON"` both capitalise to `"Salmon"` |
| RecipesModels.ShoutedSalmonExample | backend/recipes/models.py:39 | `"  SALMON  "` is stored as `"Salmon"` |
| RecipesModels.ShoutedSalmonTrimmedStart | backend/recipes/models.py:39 | left strip of `"  SALMON  "` |
| RecipesModels.ShoutedSalmonTrimmedEnd | backend/recipes/models.py:39 | right strip of `"SALMON  "` |
| RecipesModels.Ingredient.Clean | backend/recipes/models.py:38-40 | replaces the name by its normalised form and the unit by its stripped, lower-cased form |
| RecipesModels.Tag.Clean | backend/recipes/models.py:101-104 | strips and lower-cases name and slug and leaves the colour untouched |
| RecipesModels.CleanKeepsSlugValid | backend/recipes/models.py:67-72 | a valid slug has nothing to strip, and cleaning keeps it valid |
| RecipesModels.ColorExamples | backend/recipes/models.py:56-61 | `#49B64E` and the non-hex `#GGGGGG` are accepted; a short or long value, a missing `#` and a `-` are refused |
| RecipesModels.IngredientInsertError | backend/recipes/models.py:20-33 | an insert is refused iff the name is empty, the unit is empty, or the (name, unit) pair exists (length limits are not modelled); when several are violated, an empty name reports `recipes_ingredient_name_empty` (SQLite's order) |
| RecipesModels.IngredientInsertKeepsValid | backend/recipes/models.py:20-33 | an admitted insert with a new id keeps the ingredient constraints |
| RecipesModels.IngredientTable.Insert | backend/recipes/models.py:20-33 | on refusal the table is unchanged; otherwise exactly the new row is appended with the next id; the constraints are kept |
| RecipesModels.TagInsertError | backend/recipes/models.py:47-96 | a tag insert is refused iff a field is empty or the name, colour or slug is taken (length limits are not modelled) |
| RecipesModels.TagTable.Insert | backend/recipes/models.py:47-96 | on refusal the table is unchanged; otherwise exactly the new row is appended; the constraints are kept |
| UsersModels.NextUserId | backend/users/models.py:25 | the next id exceeds every stored id, so the table stays in id order |
| UsersModels.InsertUser | backend/users/models.py:6-9 | a user insert is refused iff the username or e-mail is taken (length limits are not modelled; the model reports the username when both clash), leaving the table unchanged; otherwise the row is appended and usernames, e-mails and id order are kept |
| UsersModels.UsersValid | backend/users/models.py:5-25 | defines the user table's invariant: ids increasing (the id ordering), usernames unique, e-mails unique |
| UsersModels.SubscriptionsValid | backend/users/models.py:42-55 | defines the subscription constraints: each pair at most once, and no user subscribed to themself |
| UsersModels.IsSubscribed | backend/users/serializers.py:24-29 | `is_subscribed` is false for an anonymous requester and otherwise whether the pair is in the table |
| UsersViews.SubscribeEffect | backend/users/views.py:34-64 | DELETE: removes an existing pair (204) or refuses. POST: refuses a self-subscription before looking at existence, then refuses an existing pair, else appends exactly the pair (201). A refusal leaves the table unchanged; no other pair changes |
| UsersViews.SubscribeKeepsValid | backend/users/models.py:45-53 | the toggle keeps the two subscription constraints: no duplicate pair, no self pair |
| UsersViews.SubscribeThenUnsubscribe | backend/users/views.py:41-64 | subscribing and then unsubscribing restores the table |
| UsersViews.SubscribeSetsFlag | backend/users/views.py:34-64 | afterwards `is_subscribed` for the pair is true iff the request was a POST for another user; all other pairs are as before |
| UsersViews.Subscribe | backend/users/views.py:34-64 | the view on the table: its status and new rows are those of `SubscribeEffect`, and the constraints are kept |
| UsersViews.Subscriptions | backend/users/views.py:23-27 | returns exactly the users the requester has a subscription to, as a subsequence of the user table |
| UsersViews.SubscriptionsInIdOrder | backend/users/views.py:24 | the followed authors come in id order, each once |
| UsersViews.SubscribeUpdatesList | backend/users/views.py:24 | a created subscription puts the author in the list; a deleted one takes them out |
| RecipesViews.Search | backend/recipes/views.py:37-46 | a missing or empty `name` returns the whole table; every result is an ingredient of the table |
| RecipesViews.NameAmongPrefixMatches | backend/recipes/views.py:41-42 | a row's name is among the prefix matches' names iff it starts with the query |
| RecipesViews.SearchIsTwoGroups | backend/recipes/views.py:41-46 | the result is the prefix matches followed by the rows that contain the query without starting with it |
| RecipesViews.SearchMembers | backend/recipes/views.py:41-46 | a row is returned iff its name contains the query case-insensitively |
| RecipesViews.SearchNoDuplicates | backend/recipes/views.py:41-46 | no ingredient is returned twice |
| RecipesViews.SearchOrder | backend/recipes/views.py:41-46 | both groups keep name order; the first group holds the prefix matches, the second only the non-prefix matches |
| RecipesViews.SampleMatch | backend/recipes/tests.py:21-54 | which of the eight cleaned test names start with or contain `s` |
| RecipesViews.SampleTests | backend/recipes/tests.py:21-54 | the prefix group of `s` is rows 5 to 7 and the contains-only group is row 3 |
| RecipesViews.SearchOfBlocks | backend/recipes/views.py:41-46 | when each group is a contiguous block of rows, the result is those two blocks |
| RecipesViews.SearchExample | backend/recipes/tests.py:50-54 | query `s` over the eight test ingredients returns Salmon, Salt and Sugar, which start with `s`, then Hennessy, which contains it: four rows |
| RecipesViews.RelationEffect | backend/recipes/views.py:67-91 | `del` removes a present pair (204) or refuses with the table unchanged; `add` on a present pair refuses with the table unchanged, otherwise appends exactly the pair (201); other pairs never change |
| RecipesViews.RelationEffectKeepsUnique | backend/recipes/models.py:214-219 | the toggle keeps the (recipe, user) pairs unique |
| RecipesViews.AddThenRemoveRestores | backend/recipes/views.py:71-91 | `add` followed by `del` restores the table |
| RecipesViews.ToggleSetsFlag | backend/recipes/views.py:67-91 | afterwards the requester's flag for the recipe is true iff the request was `add`; other flags are as before |
| RecipesViews.ManageRelation | backend/recipes/views.py:67-91 | the view on a Favorite or ShoppingCart table: status and new rows are those of `RelationEffect`; uniqueness kept |
| RecipesViews.CartRows | backend/recipes/views.py:120 | exactly the amount rows whose recipe is in the user's cart |
| RecipesViews.CartItems | backend/recipes/views.py:120-121 | the join gives at most one item per amount row, and every item is a row joined with an existing ingredient (its name, unit and the row's amount) |
| RecipesViews.IngredientById | backend/recipes/views.py:121 | finds the ingredient with the id iff one exists |
| RecipesViews.CartItemsJoin | backend/recipes/views.py:120-121 | every row whose ingredient exists yields its item: the ingredient's name and unit with the row's amount |
| RecipesViews.AmountsOf | backend/recipes/views.py:122 | the amounts of exactly the items with the given (name, unit) |
| RecipesViews.GroupsComeFromItems | backend/recipes/views.py:121-122 | every group's (name, unit) occurs among the items |
| RecipesViews.GroupsCoverItems | backend/recipes/views.py:121-122 | every item's (name, unit) has a group |
| RecipesViews.GroupsDistinctWithTotals | backend/recipes/views.py:121-122 | groups have distinct keys, and each total is the sum of the distinct amounts with that key |
| RecipesViews.Groups | backend/recipes/views.py:121-122 | as many groups as distinct (name, unit) pairs among the items |
| RecipesViews.ShoppingList | backend/recipes/views.py:119-123 | every line names an ingredient used by a recipe in the user's cart; every such cart row with an existing ingredient has a line; no (name, unit) twice; each total is the distinct sum of that pair's amounts |
| RecipesViews.EmptyCartNoGroups | backend/recipes/views.py:119-123 | a user with nothing in the cart gets no groups |
| RecipesViews.DistinctTotalIsSum | backend/recipes/views.py:122 | when no amount repeats within a group, the distinct sum is the plain sum |
| RecipesViews.TotalDependsOnAmountSet | backend/recipes/views.py:122 | a group total depends only on the set of amounts in the group |
| RecipesViews.FlourExample | backend/recipes/views.py:119-123 | two cart recipes each using 200 g flour give one group of 200 g, while the plain sum is 400 |
| RecipesViews.FormatLines | backend/recipes/views.py:138-145 | one line per group, and line `i` is group `i` formatted with index `i` (`enumerate`) |
| RecipesViews.FormatLine | backend/recipes/views.py:142-144 | a formatted line reads back as number `i + 1` |
| RecipesViews.IntToDecimal | backend/recipes/views.py:143 | the total written out reads back as the total, negative totals included |
| RecipesViews.FormatLineFields | backend/recipes/views.py:142-144 | the line is `str(i + 1)`, `") "`, the name (from offset `len(str(i + 1)) + 2`), `" - "`, the total's digits (which read back as the total) and `" " + unit`, and nothing else |
| RecipesViews.FlourLine | backend/recipes/views.py:142-144 | the first line for 200 g of flour is `1) Flour - 200 g` |
| RecipesViews.LeadingDigits | backend/recipes/views.py:142 | the longest all-digit prefix of a line |
| RecipesViews.LeadingDigitsOfNumber | backend/recipes/views.py:142 | digits followed by a non-digit read back as exactly those digits |
| RecipesViews.LineNumbersConsecutive | backend/recipes/views.py:138-145 | line `i` starts with the number `i + 1`, so lines are numbered consecutively from 1 |
| RecipesSerializers.FirstFault | backend/recipes/serializers.py:138-159 | none iff no entry from the start position on has a fault; otherwise the fault of the first faulty entry |
| RecipesSerializers.IngredientsError | backend/recipes/serializers.py:135-160 | an empty list is refused as missing; every error is on `ingredients` |
| RecipesSerializers.IngredientsAccepted | backend/recipes/serializers.py:135-160 | accepted iff the list is non-empty, every entry has an existing id and an amount of at least 1, and no id repeats |
| RecipesSerializers.FirstOffenderDecides | backend/recipes/serializers.py:139-159 | the first faulty entry in list order decides the error, checked in the order: no id, unknown id, repeated id, amount below 1 |
| RecipesSerializers.ValidateIngredients | backend/recipes/serializers.py:135-160 | the loop with its list of seen ids refuses with exactly `IngredientsError`, or returns its input unchanged |
| RecipesSerializers.ValidateTags | backend/recipes/serializers.py:162-167 | on success it returns its input unchanged |
| RecipesSerializers.TagsAccepted | backend/recipes/serializers.py:162-167 | accepted iff the list is non-empty and has no duplicates; an empty list is refused as missing, a repeated tag as repeated |
| RecipesSerializers.NameError | backend/recipes/serializers.py:169-187 | refused on `error` iff the author already has a recipe of that name, not counting the recipe being edited |
| RecipesSerializers.CreateKeepsNamesUnique | backend/recipes/serializers.py:169-196 | a name that passes `validate` on create keeps (name, author) unique once stored |
| RecipesSerializers.UpdateKeepsNamesUnique | backend/recipes/serializers.py:169-187 | a name that passes `validate` on update keeps (name, author) unique once the row is edited |
| RecipesSerializers.SetTagsLinks | backend/recipes/serializers.py:194 | after `tags.set`, the recipe is linked to exactly the given tags, other recipes' links are unchanged, and no link is stored twice |
| RecipesSerializers.ClearThenSetTags | backend/recipes/serializers.py:203-205 | clearing and then setting leaves the other recipes' links followed by one link per distinct tag |
| RecipesSerializers.ReplaceAmounts | backend/recipes/serializers.py:206-208 | afterwards the recipe's amount rows are exactly the new ones, and every other recipe's rows are unchanged |
| RecipesSerializers.ClearAmounts | backend/recipes/serializers.py:206-207 | `ingredients.clear()` leaves exactly the other recipes' amount rows, in order |
| RecipesSerializers.ClearTags | backend/recipes/serializers.py:203-204 | `tags.clear()` leaves exactly the other recipes' links, in order |
| RecipesSerializers.SetTags | backend/recipes/serializers.py:194 | defines `tags.set`: the links kept plus one new link per wanted tag not yet linked; its properties are `SetTagsLinks` |
| RecipesSerializers.Edited | backend/recipes/serializers.py:201 | the edited row keeps id, author and date; each of name, text and cooking time is the sent value if sent and the stored one otherwise |
| RecipesSerializers.CreateAmounts | backend/recipes/serializers.py:189-196 | for a new recipe, its amount rows afterwards are exactly one per submitted entry |
| RecipesSerializers.AmountRowsKeepValid | backend/recipes/models.py:171-189 | validated entries appended for a recipe without rows keep (recipe, ingredient) unique and every amount at least 1 |
| RecipesSerializers.FilterKeepsAmountsValid | backend/recipes/models.py:171-189 | deleting amount rows keeps the amount constraints |
| RecipesSerializers.Create | backend/recipes/serializers.py:189-196 | stores the recipe with the next id and the requester as author, sets its tags, appends one amount row per entry, and keeps every table valid |
| RecipesSerializers.EditKeepsRecipesValid | backend/recipes/serializers.py:198-201 | editing the recipe's fields with validated values keeps the recipe constraints |
| RecipesSerializers.ResetTagsKeepsLinksValid | backend/recipes/serializers.py:203-205 | clearing and re-setting tags keeps links unique and pointing at existing recipes |
| RecipesSerializers.ReplaceKeepsAmountsValid | backend/recipes/serializers.py:206-208 | replacing amount rows keeps the amount constraints and the links to existing recipes |
| RecipesSerializers.EditRecipe | backend/recipes/serializers.py:201 | the recipe table afterwards holds exactly the edited rows, keeps its constraints and its next id |
| RecipesSerializers.ResetTags | backend/recipes/serializers.py:203-205 | the link table afterwards is the cleared table with the new tags set, still valid and pointing at existing recipes |
| RecipesSerializers.ReplaceIngredients | backend/recipes/serializers.py:206-208 | the amount table afterwards is the other recipes' rows followed by one row per new entry, still valid |
| RecipesSerializers.Update | backend/recipes/serializers.py:198-208 | the sent fields replace the stored ones; a non-empty tag list clears and sets the tags; a non-empty ingredient list replaces the amount rows; omitted or empty lists change nothing; other recipes' rows are untouched |
| RecipesSerializers.InList | backend/recipes/serializers.py:82-92 | `is_favorited` / `is_in_shopping_cart`: false for an anonymous requester, otherwise whether the (user, recipe) pair exists |
| RecipesFilters.TagsFilter | backend/recipes/filters.py:19-23 | no slug keeps every recipe; otherwise a recipe is kept iff one of its tags has a requested slug; the result is a subsequence |
| RecipesFilters.TagsFilterIsUnion | backend/recipes/filters.py:19-23 | OR semantics: slugs `a + b` keep exactly what `a` or `b` keeps |
| RecipesFilters.TagsFilterPicksOne | backend/recipes/filters.py:19-23 | with one tag per recipe and distinct slugs, the slug of tag `m` selects recipe `m` alone |
| RecipesFilters.SingleSlugListing | backend/recipes/filters.py:19-23 | with one tag per recipe and distinct slugs, listing by the slug of tag `m` with no other filter gives exactly recipe `m` |
| RecipesFilters.SingleTagListing | backend/recipes/tests.py:131-160 | `tags=egg` over eight single-tag recipes lists exactly the egg recipe |
| RecipesFilters.AuthorFilter | backend/recipes/filters.py:24 | keeps exactly the recipes of the given author; no author keeps all |
| RecipesFilters.FlagFilter | backend/recipes/filters.py:28-38 | with the flag true and a signed-in requester, keeps exactly the recipes with the requester's row in the table; otherwise returns the input unchanged |
| RecipesFilters.FilterErrors | backend/recipes/filters.py:19-24 | a slug naming no tag is an invalid `tags` choice and an id naming no user an invalid `author` choice; no error iff neither |
| RecipesFilters.RecipeList | backend/recipes/filters.py:9-45 | refused exactly when there are field errors, with those errors |
| RecipesFilters.RecipeListIsOneFilter | backend/recipes/filters.py:9-45 | the four filters in a row are one filter by the conjunction of their tests |
| RecipesFilters.RecipeListSelects | backend/recipes/filters.py:9-45 | the listing holds exactly the recipes every active filter keeps, as a subsequence, without duplicates, newest first when the input is |
| RecipesFilters.InactiveFlagsChangeNothing | backend/recipes/filters.py:28-38 | false, absent or anonymous flags leave the listing as the tag and author filters make it |

## Left out

- PDF rendering of the shopping list (fonts, page layout, bytes) is not modelled. The model stops at the aggregated groups and the formatted line strings.
- HTTP dispatch, permissions, authentication and pagination are not modelled. The `limit` parameter of the subscriptions test is one example. Statuses and field errors are abstract datatypes.
- `get_object` / `get_object_or_404` lookups are outside the model. The toggles take the id of an existing recipe or user, and `Create` / `Update` take entries whose ids name existing ingredients. Tag ids are assumed to name existing tags: the serializer's `PrimaryKeyRelatedField` refuses an unknown tag id before `validate_tags` runs, and the model links whatever ids it is given.
- RecipesModels.IngredientInsertError: when several constraints are violated, the reported one follows SQLite's order (the check constraints as declared, then the unique constraint). The database engine decides it; PostgreSQL tests check constraints in name order, so an empty name and unit reports `recipes_ingredient_measurement_unit_empty` there.
- RecipesModels.TagInsertError: likewise, the order among several violated constraints follows SQLite and is up to the database engine; PostgreSQL would report `recipes_tag_color_empty` for an empty name and colour.
- Field length limits are not modelled. Every stored string is unbounded. SQLite stores a longer value; PostgreSQL, the configured database, refuses it with a `DataError`. The limits are 200 characters for an ingredient's name and unit, a tag's name and slug, and a recipe's name; 7 for a tag's colour; 150 for a username; and 254 for an e-mail (the `EmailField` default). The members below are affected.
- RecipesModels.IngredientInsertError: does not refuse a name or unit over 200 characters; "refused iff" holds for the declared check and unique constraints only.
- RecipesModels.TagInsertError: does not refuse a name or slug over 200 characters, or a colour over 7. The colour regex is a field validator, which a plain insert does not run, so neither the model nor SQLite enforces it there.
- UsersModels.InsertUser: does not refuse a username over 150 characters or an e-mail over 254; it refuses only on a unique clash.
- RecipesSerializers.Create: admits a recipe name over 200 characters. DRF refuses such a name during field validation, before `validate` runs, and `RecipesModels.RecipesValid` has no length bound either.
- Images, Base64 decoding and the `importcsv` management command are not modelled. They are file I/O.
- Case mapping and whitespace are ASCII only. Names in other scripts (often Cyrillic) follow full Unicode rules in Python, and those rules are not part of this model.
- The slug validator is read as a full match. Python's `$` also matches before one trailing newline, so the source accepts `"egg\n"`; the model does not.
- Concurrency is not modelled. Each operation runs alone, so races between the existence check and the insert never happen.
- An ingredient entry without `amount` makes `int(None)` raise. The model assumes the amount is present.
- RecipesViews.Groups: SQL leaves the order of the aggregated groups open. The model lists them in the order of each key's last occurrence, and no lemma depends on that order.
- RecipesSerializers.Update: models an edit by the recipe's author. When a staff user edits someone else's recipe, `validate` checks the name against the staff user's own recipes, and that path is not modelled.
- RecipesFilters.FilterErrors: invalid choices are reported one per field, without Django's message text. Every other error message is likewise abstracted to a reason.
- Messages in responses are abstracted to a reason or conflict constructor.
- RecipesSerializers.FirstFault: models the text of `validate_ingredients` alone. DRF's per-item field validation runs before it: the required `id` and the `MinValueValidator(1)` on `amount`. Through the API the "no id" and "amount below 1" faults are therefore reported as field errors of their entry before `validate_ingredients` runs, so across entries the error reported can differ from the model's.
- UsersModels.InsertUser: when both the username and the e-mail are taken, the model reports the username. Which unique index the database checks first is not fixed by the source.
- Integer widths are not modelled. Ids and amounts are unbounded, so nothing overflows.
