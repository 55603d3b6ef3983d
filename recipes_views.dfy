/** The recipe views (backend/recipes/views.py): the ingredient search, the toggle
    behind the favourite and shopping-cart actions, and the shopping list's grouping,
    distinct sums and numbered lines. */
module RecipesViews {
  import opened Text
  import opened Seqs
  import opened Common
  import opened UsersModels
  import opened RecipesModels
  import opened RecipesSerializers

  // ---------------------------------------------------------------- ingredient search

  /** `name__istartswith=q` */
  function Prefixed(q: string): IngredientRow -> bool {
    (x: IngredientRow) => IStartsWith(x.name, q)
  }

  /** `name__icontains=q` */
  function Contained(q: string): IngredientRow -> bool {
    (x: IngredientRow) => IContains(x.name, q)
  }

  /** `.exclude(name__in=names)` */
  function NameNotIn(names: seq<string>): IngredientRow -> bool {
    (x: IngredientRow) => x.name !in names
  }

  /** A match that contains the query without starting with it. */
  function ContainedOnly(q: string): IngredientRow -> bool {
    (x: IngredientRow) => IContains(x.name, q) && !IStartsWith(x.name, q)
  }

  /** `values_list('name')` */
  function Names(rows: seq<IngredientRow>): (r: seq<string>)
    ensures |r| == |rows|
    ensures forall k :: 0 <= k < |rows| ==> r[k] == rows[k].name
  {
    seq(|rows|, k requires 0 <= k < |rows| => rows[k].name)
  }

  /** `IngredientViewSet.get_queryset`: without a (non-empty) `name` query, every
      ingredient; otherwise the prefix matches followed by the other rows that contain
      the query and whose name no prefix match has. */
  function Search(rows: seq<IngredientRow>, name: Option<string>): (r: seq<IngredientRow>)
    ensures name.None? || name.value == [] ==> r == rows
    ensures forall x :: x in r ==> x in rows
  {
    if name.None? || name.value == [] then rows
    else
      var q := name.value;
      var start := Filter(rows, Prefixed(q));
      var contain := Filter(Filter(rows, Contained(q)), NameNotIn(Names(start)));
      start + contain
  }

  /** A row's name is among the prefix matches' names exactly when it is a prefix match. */
  lemma NameAmongPrefixMatches(rows: seq<IngredientRow>, q: string, x: IngredientRow)
    requires x in rows
    ensures x.name in Names(Filter(rows, Prefixed(q))) <==> IStartsWith(x.name, q)
  {
    var start := Filter(rows, Prefixed(q));
    var names := Names(start);
    if x.name in names {
      var j :| 0 <= j < |names| && names[j] == x.name;
      assert start[j] in start;
      assert IStartsWith(start[j].name, q);
    }
    if IStartsWith(x.name, q) {
      assert x in start;
      var j :| 0 <= j < |start| && start[j] == x;
      assert names[j] == x.name;
    }
  }

  /** The exclusion by name removes exactly the prefix matches, so the search is the
      prefix matches followed by the matches that only contain the query. */
  lemma SearchIsTwoGroups(rows: seq<IngredientRow>, q: string)
    requires q != []
    ensures Search(rows, Some(q)) == Filter(rows, Prefixed(q)) + Filter(rows, ContainedOnly(q))
  {
    var start := Filter(rows, Prefixed(q));
    var names := Names(start);
    forall k | 0 <= k < |rows|
      ensures ContainedOnly(q)(rows[k]) == (Contained(q)(rows[k]) && NameNotIn(names)(rows[k]))
    {
      NameAmongPrefixMatches(rows, q, rows[k]);
    }
    FilterTwice(rows, Contained(q), NameNotIn(names), ContainedOnly(q));
  }

  /** A non-empty query returns exactly the ingredients whose name contains it. */
  lemma SearchMembers(rows: seq<IngredientRow>, q: string)
    requires q != []
    ensures forall x :: x in Search(rows, Some(q)) ==> x in rows && IContains(x.name, q)
    ensures forall x :: x in rows && IContains(x.name, q) ==> x in Search(rows, Some(q))
  {
    SearchIsTwoGroups(rows, q);
    forall x | x in rows && IStartsWith(x.name, q) ensures IContains(x.name, q) {
      IStartsWithContains(x.name, q);
    }
  }

  /** The table's rows are distinct, so the search never returns a row twice. */
  lemma SearchNoDuplicates(rows: seq<IngredientRow>, name: Option<string>)
    requires IngredientsValid(rows)
    ensures NoDuplicates(Search(rows, name))
  {
    assert NoDuplicates(rows) by {
      forall i, j | 0 <= i < j < |rows| ensures rows[i] != rows[j] {
        assert rows[i].id != rows[j].id;
      }
    }
    if name.Some? && name.value != [] {
      var q := name.value;
      SearchIsTwoGroups(rows, q);
      var a, b := Filter(rows, Prefixed(q)), Filter(rows, ContainedOnly(q));
      FilterKeepsNoDuplicates(rows, Prefixed(q));
      FilterKeepsNoDuplicates(rows, ContainedOnly(q));
      forall i | 0 <= i < |a| ensures a[i] !in b {
        assert a[i] in a;
      }
      NoDuplicatesAppend(a, b);
    }
  }

  /** Over a table in its default name order, the result is the prefix matches in name
      order followed by the contain-only matches in name order. */
  lemma SearchOrder(rows: seq<IngredientRow>, q: string)
    requires q != [] && InNameOrder(rows)
    ensures var r := Search(rows, Some(q)); var m := |Filter(rows, Prefixed(q))|;
      && m <= |r|
      && InNameOrder(r[..m]) && InNameOrder(r[m..])
      && (forall k :: 0 <= k < m ==> IStartsWith(r[k].name, q))
      && (forall k :: m <= k < |r| ==> IContains(r[k].name, q) && !IStartsWith(r[k].name, q))
  {
    SearchIsTwoGroups(rows, q);
    var a, b := Filter(rows, Prefixed(q)), Filter(rows, ContainedOnly(q));
    var r := a + b;
    assert r[..|a|] == a && r[|a|..] == b;
    FilterKeepsOrder(rows, Prefixed(q), (x: IngredientRow, y: IngredientRow) => LexLe(x.name, y.name));
    FilterKeepsOrder(rows, ContainedOnly(q), (x: IngredientRow, y: IngredientRow) => LexLe(x.name, y.name));
    forall k | 0 <= k < |a| ensures IStartsWith(r[k].name, q) {
      assert r[k] == a[k] && a[k] in a;
    }
    forall k | |a| <= k < |r| ensures IContains(r[k].name, q) && !IStartsWith(r[k].name, q) {
      assert r[k] == b[k - |a|] && b[k - |a|] in b;
    }
  }

  /** The eight ingredients of the search test, cleaned and in name order. */
  function SampleIngredients(): seq<IngredientRow> {
    [ IngredientRow(7, "Apple", "g"), IngredientRow(6, "Chocolate", "g"), IngredientRow(1, "Egg", "g"),
      IngredientRow(8, "Hennessy", "g"), IngredientRow(4, "Mango", "g"), IngredientRow(3, "Salmon", "g"),
      IngredientRow(2, "Salt", "g"), IngredientRow(5, "Sugar", "g") ]
  }

  /** Which of the eight names start with "s" and which contain it. */
  lemma SampleMatch(k: nat)
    requires k < |SampleIngredients()|
    ensures IStartsWith(SampleIngredients()[k].name, "s") <==> 5 <= k
    ensures IContains(SampleIngredients()[k].name, "s") <==> 3 <= k && k != 4
  {
    var n := SampleIngredients()[k].name;
    assert Lower(n[..1]) == [ToLower(n[0])];
    IContainsChar(n, 's');
    if k == 3 { assert ToLower(n[5]) == 's'; }
    if k >= 5 { assert ToLower(n[0]) == 's'; }
  }

  lemma SampleTests(rows: seq<IngredientRow>)
    requires rows == SampleIngredients()
    ensures forall k :: 0 <= k < |rows| ==> (Prefixed("s")(rows[k]) <==> 5 <= k < 8)
    ensures forall k :: 0 <= k < |rows| ==> (ContainedOnly("s")(rows[k]) <==> 3 <= k < 4)
  {
    forall k | 0 <= k < |rows|
      ensures Prefixed("s")(rows[k]) <==> 5 <= k < 8
      ensures ContainedOnly("s")(rows[k]) <==> 3 <= k < 4
    {
      SampleMatch(k);
    }
  }

  /** A query whose prefix matches and contain-only matches each form one block of the
      table returns the first block followed by the second. */
  lemma SearchOfBlocks(rows: seq<IngredientRow>, q: string, lo1: nat, hi1: nat, lo2: nat, hi2: nat)
    requires q != [] && lo1 <= hi1 <= |rows| && lo2 <= hi2 <= |rows|
    requires forall k :: 0 <= k < |rows| ==> (Prefixed(q)(rows[k]) <==> lo1 <= k < hi1)
    requires forall k :: 0 <= k < |rows| ==> (ContainedOnly(q)(rows[k]) <==> lo2 <= k < hi2)
    ensures Search(rows, Some(q)) == rows[lo1..hi1] + rows[lo2..hi2]
  {
    SearchIsTwoGroups(rows, q);
    FilterBlock(rows, Prefixed(q), lo1, hi1);
    FilterBlock(rows, ContainedOnly(q), lo2, hi2);
  }

  /** The query "s" over those eight names finds four: "Salmon", "Salt" and "Sugar",
      which start with it, then "Hennessy". */
  lemma SearchExample(rows: seq<IngredientRow>, q: string)
    requires |rows| == 8 && q == "s"
    requires forall k :: 0 <= k < 8 ==> rows[k] == SampleIngredients()[k]
    ensures Search(rows, Some(q)) == rows[5..8] + rows[3..4]
    ensures |Search(rows, Some(q))| == 4
  {
    assert rows == SampleIngredients();
    SampleTests(rows);
    SearchOfBlocks(rows, q, 5, 8, 3, 4);
  }

  // ---------------------------------------------------------------- favourite and cart toggles

  /** What `manage_relation` does to a Favorite or ShoppingCart table and what it
      answers: 'del' of a missing pair and 'add' of a present one are refused and change
      nothing; otherwise the pair is deleted (204) or inserted (201). */
  function RelationEffect(rows: seq<UserRecipe>, user: UserId, recipe: RecipeId, mode: Mode)
    : (r: (Status, seq<UserRecipe>))
    ensures r.0 == Created <==> mode == Add && UserRecipe(user, recipe) !in rows
    ensures r.0 == NoContent <==> mode == Remove && UserRecipe(user, recipe) in rows
    ensures r.0.Refusal? ==> r.1 == rows
    ensures r.0.Refusal? ==> r.0.conflict == (if mode == Add then AlreadyAdded else NotInList)
    ensures r.0 == Created ==> r.1 == rows + [UserRecipe(user, recipe)]
    ensures r.0 == NoContent ==> UserRecipe(user, recipe) !in r.1
    ensures forall p :: p != UserRecipe(user, recipe) ==> (p in r.1 <==> p in rows)
  {
    var pair := UserRecipe(user, recipe);
    var existed := pair in rows;
    match mode
    case Remove => if !existed then (Refusal(NotInList), rows) else (NoContent, Without(rows, pair))
    case Add => if existed then (Refusal(AlreadyAdded), rows) else (Created, rows + [pair])
  }

  /** The toggle keeps the (recipe, user) unique constraint. */
  lemma RelationEffectKeepsUnique(rows: seq<UserRecipe>, user: UserId, recipe: RecipeId, mode: Mode)
    requires NoDuplicates(rows)
    ensures NoDuplicates(RelationEffect(rows, user, recipe, mode).1)
  {
    var pair := UserRecipe(user, recipe);
    if mode == Remove && pair in rows {
      WithoutKeepsNoDuplicates(rows, pair);
    } else if mode == Add && pair !in rows {
      NoDuplicatesAppend(rows, [pair]);
    }
  }

  /** Adding a recipe to a list and then removing it restores the table. */
  lemma AddThenRemoveRestores(rows: seq<UserRecipe>, user: UserId, recipe: RecipeId)
    requires UserRecipe(user, recipe) !in rows
    ensures RelationEffect(RelationEffect(rows, user, recipe, Add).1, user, recipe, Remove) == (NoContent, rows)
  {
    WithoutAppended(rows, UserRecipe(user, recipe));
  }

  /** Whatever the status, after the toggle the requester's flag for the recipe says
      whether the request was an add; every other user's and recipe's flag is as before. */
  lemma ToggleSetsFlag(rows: seq<UserRecipe>, user: UserId, recipe: RecipeId, mode: Mode)
    ensures InList(RelationEffect(rows, user, recipe, mode).1, Some(user), recipe) <==> mode == Add
    ensures forall u: UserId, q: RecipeId :: (u, q) != (user, recipe) ==>
      InList(RelationEffect(rows, user, recipe, mode).1, Some(u), q) == InList(rows, Some(u), q)
  {
    var r := RelationEffect(rows, user, recipe, mode);
    forall u: UserId, q: RecipeId | (u, q) != (user, recipe)
      ensures InList(r.1, Some(u), q) == InList(rows, Some(u), q)
    {
      assert UserRecipe(u, q) != UserRecipe(user, recipe);
    }
  }

  /** `RecipeViewSet.manage_relation` on the Favorite or the ShoppingCart table. */
  method ManageRelation(table: RecipeListTable, user: UserId, recipe: RecipeId, mode: Mode)
    returns (status: Status)
    requires table.Valid()
    modifies table
    ensures table.Valid()
    ensures (status, table.rows) == RelationEffect(old(table.rows), user, recipe, mode)
  {
    RelationEffectKeepsUnique(table.rows, user, recipe, mode);
    var pair := UserRecipe(user, recipe);
    var existed := pair in table.rows;
    if mode == Remove {
      if !existed {
        return Refusal(NotInList);
      }
      table.rows := Without(table.rows, pair);
      return NoContent;
    }
    if existed {
      return Refusal(AlreadyAdded);
    }
    table.rows := table.rows + [pair];
    return Created;
  }

  // ---------------------------------------------------------------- shopping list

  /** `recipe__cart_recipe__user=user`: the row's recipe is in the user's cart. */
  function InCartOf(carts: seq<UserRecipe>, user: UserId): AmountRow -> bool {
    (a: AmountRow) => UserRecipe(user, a.recipe) in carts
  }

  /** The ingredient-amount rows of the recipes in the user's cart. */
  function CartRows(amounts: seq<AmountRow>, carts: seq<UserRecipe>, user: UserId): (r: seq<AmountRow>)
    ensures forall a :: a in r ==> a in amounts && UserRecipe(user, a.recipe) in carts
    ensures forall a :: a in amounts && UserRecipe(user, a.recipe) in carts ==> a in r
  {
    Filter(amounts, InCartOf(carts, user))
  }

  /** A cart row joined with its ingredient: `ingredient__name`,
      `ingredient__measurement_unit` and `amount`. */
  datatype CartItem = CartItem(name: string, unit: string, amount: int)

  /** The ingredient row with id `id`, if any. */
  function IngredientById(ingredients: seq<IngredientRow>, id: IngredientId): (r: Option<IngredientRow>)
    ensures r.Some? <==> exists k :: 0 <= k < |ingredients| && ingredients[k].id == id
    ensures r.Some? ==> r.value in ingredients && r.value.id == id
  {
    if ingredients == [] then None
    else if ingredients[0].id == id then Some(ingredients[0])
    else IngredientById(ingredients[1..], id)
  }

  /** The item an amount row gives when joined with ingredient `i`. */
  predicate JoinedFrom(rows: seq<AmountRow>, ingredients: seq<IngredientRow>, t: CartItem) {
    exists k, i :: (0 <= k < |rows| && i in ingredients && i.id == rows[k].ingredient &&
                    t == CartItem(i.name, i.measurementUnit, rows[k].amount))
  }

  /** A join of the tail of `rows` is a join of `rows`. */
  lemma JoinedFromTail(rows: seq<AmountRow>, ingredients: seq<IngredientRow>, t: CartItem)
    requires rows != [] && JoinedFrom(rows[1..], ingredients, t)
    ensures JoinedFrom(rows, ingredients, t)
  {
    var k, i :| 0 <= k < |rows[1..]| && i in ingredients && i.id == rows[1..][k].ingredient &&
      t == CartItem(i.name, i.measurementUnit, rows[1..][k].amount);
    assert rows[1..][k] == rows[k + 1];
  }

  /** The inner join of amount rows with the ingredient table: at most one item per
      row, and every item is a row joined with the ingredient it names. */
  function CartItems(rows: seq<AmountRow>, ingredients: seq<IngredientRow>): (r: seq<CartItem>)
    ensures |r| <= |rows|
    ensures forall t :: t in r ==> JoinedFrom(rows, ingredients, t)
    decreases |rows|
  {
    if rows == [] then []
    else
      var rest := CartItems(rows[1..], ingredients);
      assert forall t :: t in rest ==> JoinedFrom(rows, ingredients, t) by {
        forall t | t in rest ensures JoinedFrom(rows, ingredients, t) {
          JoinedFromTail(rows, ingredients, t);
        }
      }
      match IngredientById(ingredients, rows[0].ingredient)
      case None => rest
      case Some(i) => [CartItem(i.name, i.measurementUnit, rows[0].amount)] + rest
  }

  /** Every row whose ingredient exists gives an item with that ingredient's name and
      unit and the row's amount. */
  lemma {:induction false} CartItemsJoin(rows: seq<AmountRow>, ingredients: seq<IngredientRow>)
    ensures forall k :: 0 <= k < |rows| && IngredientById(ingredients, rows[k].ingredient).Some? ==>
      var i := IngredientById(ingredients, rows[k].ingredient).value;
      CartItem(i.name, i.measurementUnit, rows[k].amount) in CartItems(rows, ingredients)
    decreases |rows|
  {
    if rows != [] {
      CartItemsJoin(rows[1..], ingredients);
      forall k | 1 <= k < |rows| ensures rows[k] == rows[1..][k - 1] { }
    }
  }

  /** One line of the aggregated shopping list. */
  datatype Group = Group(name: string, unit: string, total: int)

  /** The grouping columns of the items, `values('ingredient__name',
      'ingredient__measurement_unit')`. */
  function ItemKeys(items: seq<CartItem>): (r: seq<(string, string)>)
    ensures |r| == |items|
    ensures forall k :: 0 <= k < |items| ==> r[k] == (items[k].name, items[k].unit)
  {
    seq(|items|, k requires 0 <= k < |items| => (items[k].name, items[k].unit))
  }

  /** The amounts of the items whose ingredient has this name and unit. */
  function AmountsOf(items: seq<CartItem>, name: string, unit: string): (r: seq<int>)
    ensures forall x :: x in r <==> exists k :: 0 <= k < |items| && items[k] == CartItem(name, unit, x)
    decreases |items|
  {
    if items == [] then []
    else
      var rest := AmountsOf(items[1..], name, unit);
      assert forall k :: 1 <= k < |items| ==> items[k] == items[1..][k - 1];
      if items[0].name == name && items[0].unit == unit then [items[0].amount] + rest else rest
  }

  /** `.annotate(Sum('amount', distinct=True))`: one group per distinct (name, unit), its
      total the sum of the distinct amounts in it. SQL leaves the order of the groups
      open; the model lists them in the order of each key's last occurrence. */
  function Groups(items: seq<CartItem>): (r: seq<Group>)
    ensures |r| == |Dedup(ItemKeys(items))|
  {
    var keys := Dedup(ItemKeys(items));
    seq(|keys|, i requires 0 <= i < |keys| =>
      Group(keys[i].0, keys[i].1, SumDistinct(AmountsOf(items, keys[i].0, keys[i].1))))
  }

  /** Line `g` names an ingredient that an amount row of a recipe in the user's cart uses. */
  predicate LineFromCart(amounts: seq<AmountRow>, ingredients: seq<IngredientRow>, carts: seq<UserRecipe>, user: UserId, g: Group) {
    exists a, ing :: (a in amounts && UserRecipe(user, a.recipe) in carts &&
      ing in ingredients && ing.id == a.ingredient && ing.name == g.name && ing.measurementUnit == g.unit)
  }

  /** Some line of `r` has the ingredient's name and unit. */
  predicate HasLine(r: seq<Group>, ing: IngredientRow) {
    exists i :: 0 <= i < |r| && r[i].name == ing.name && r[i].unit == ing.measurementUnit
  }

  /** The aggregation in `download_shopping_cart`: one line per (name, unit) of an
      ingredient used by a recipe in the user's cart, each such pair exactly once, with
      the distinct sum of its amounts. */
  function ShoppingList(amounts: seq<AmountRow>, ingredients: seq<IngredientRow>, carts: seq<UserRecipe>, user: UserId)
    : (r: seq<Group>)
    ensures forall i :: 0 <= i < |r| ==> LineFromCart(amounts, ingredients, carts, user, r[i])
    ensures forall a :: a in amounts && UserRecipe(user, a.recipe) in carts && IngredientById(ingredients, a.ingredient).Some? ==>
      HasLine(r, IngredientById(ingredients, a.ingredient).value)
    ensures forall i, j :: 0 <= i < j < |r| ==> r[i].name != r[j].name || r[i].unit != r[j].unit
    ensures forall i :: 0 <= i < |r| ==>
      r[i].total == SumDistinct(AmountsOf(CartItems(CartRows(amounts, carts, user), ingredients), r[i].name, r[i].unit))
  {
    var items := CartItems(CartRows(amounts, carts, user), ingredients);
    LinesFromCart(amounts, ingredients, carts, user, items);
    CartCoveredByLines(amounts, ingredients, carts, user, items);
    GroupsDistinctWithTotals(items);
    Groups(items)
  }

  /** Every line of a user's cart names an ingredient one of the cart's amount rows uses. */
  lemma LinesFromCart(amounts: seq<AmountRow>, ingredients: seq<IngredientRow>, carts: seq<UserRecipe>, user: UserId,
                      items: seq<CartItem>)
    requires items == CartItems(CartRows(amounts, carts, user), ingredients)
    ensures forall i :: 0 <= i < |Groups(items)| ==> LineFromCart(amounts, ingredients, carts, user, Groups(items)[i])
  {
    var rows := CartRows(amounts, carts, user);
    var g := Groups(items);
    GroupsComeFromItems(items);
    forall i | 0 <= i < |g| ensures LineFromCart(amounts, ingredients, carts, user, g[i]) {
      var k :| 0 <= k < |items| && items[k].name == g[i].name && items[k].unit == g[i].unit;
      assert items[k] in items;
      var m, ing :| 0 <= m < |rows| && ing in ingredients && ing.id == rows[m].ingredient &&
        items[k] == CartItem(ing.name, ing.measurementUnit, rows[m].amount);
      assert rows[m] in rows;
    }
  }

  /** Every amount row of a recipe in the cart whose ingredient exists has a line. */
  lemma CartCoveredByLines(amounts: seq<AmountRow>, ingredients: seq<IngredientRow>, carts: seq<UserRecipe>, user: UserId,
                           items: seq<CartItem>)
    requires items == CartItems(CartRows(amounts, carts, user), ingredients)
    ensures forall a :: a in amounts && UserRecipe(user, a.recipe) in carts && IngredientById(ingredients, a.ingredient).Some? ==>
      HasLine(Groups(items), IngredientById(ingredients, a.ingredient).value)
  {
    var rows := CartRows(amounts, carts, user);
    var g := Groups(items);
    GroupsCoverItems(items);
    CartItemsJoin(rows, ingredients);
    forall a | a in amounts && UserRecipe(user, a.recipe) in carts && IngredientById(ingredients, a.ingredient).Some?
      ensures HasLine(g, IngredientById(ingredients, a.ingredient).value)
    {
      assert a in rows;
      var m :| 0 <= m < |rows| && rows[m] == a;
      var ing := IngredientById(ingredients, a.ingredient).value;
      var t := CartItem(ing.name, ing.measurementUnit, a.amount);
      assert t in items;
      var k :| 0 <= k < |items| && items[k] == t;
      var i :| 0 <= i < |g| && g[i].name == items[k].name && g[i].unit == items[k].unit;
    }
  }

  /** Every group's (name, unit) occurs among the items. */
  lemma GroupsComeFromItems(items: seq<CartItem>)
    ensures var g := Groups(items);
      forall i :: 0 <= i < |g| ==> exists k :: 0 <= k < |items| && items[k].name == g[i].name && items[k].unit == g[i].unit
  {
    var keys := Dedup(ItemKeys(items));
    var g := Groups(items);
    forall i | 0 <= i < |g|
      ensures exists k :: 0 <= k < |items| && items[k].name == g[i].name && items[k].unit == g[i].unit
    {
      assert g[i].name == keys[i].0 && g[i].unit == keys[i].1;
      assert keys[i] in keys;
      assert keys[i] in ItemKeys(items);
      var k :| 0 <= k < |items| && ItemKeys(items)[k] == keys[i];
    }
  }

  /** Every item's (name, unit) has a group. */
  lemma GroupsCoverItems(items: seq<CartItem>)
    ensures var g := Groups(items);
      forall k :: 0 <= k < |items| ==> exists i :: 0 <= i < |g| && g[i].name == items[k].name && g[i].unit == items[k].unit
  {
    var keys := Dedup(ItemKeys(items));
    var g := Groups(items);
    forall k | 0 <= k < |items|
      ensures exists i :: 0 <= i < |g| && g[i].name == items[k].name && g[i].unit == items[k].unit
    {
      assert ItemKeys(items)[k] in ItemKeys(items);
      assert ItemKeys(items)[k] in keys;
      var i :| 0 <= i < |keys| && keys[i] == ItemKeys(items)[k];
      assert g[i].name == keys[i].0 && g[i].unit == keys[i].1;
    }
  }

  /** No two groups share a (name, unit), and each total is the sum of the distinct
      amounts with that key. */
  lemma GroupsDistinctWithTotals(items: seq<CartItem>)
    ensures var g := Groups(items);
      && (forall i, j :: 0 <= i < j < |g| ==> g[i].name != g[j].name || g[i].unit != g[j].unit)
      && (forall i :: 0 <= i < |g| ==> g[i].total == SumDistinct(AmountsOf(items, g[i].name, g[i].unit)))
  {
    var keys := Dedup(ItemKeys(items));
    var g := Groups(items);
    forall i, j | 0 <= i < j < |g| ensures g[i].name != g[j].name || g[i].unit != g[j].unit {
      assert g[i].name == keys[i].0 && g[i].unit == keys[i].1;
      assert g[j].name == keys[j].0 && g[j].unit == keys[j].1;
      assert keys[i] != keys[j];
    }
  }

  /** The cart of a user with no cart rows gives no groups. */
  lemma EmptyCartNoGroups(amounts: seq<AmountRow>, ingredients: seq<IngredientRow>, carts: seq<UserRecipe>, user: UserId)
    requires forall k :: 0 <= k < |carts| ==> carts[k].user != user
    ensures ShoppingList(amounts, ingredients, carts, user) == []
  {
    assert forall k :: 0 <= k < |amounts| ==> !InCartOf(carts, user)(amounts[k]);
    FilterKeepsNone(amounts, InCartOf(carts, user));
  }

  /** Where no amount repeats within a group, the distinct sum is the plain sum. */
  lemma DistinctTotalIsSum(items: seq<CartItem>, name: string, unit: string)
    requires NoDuplicates(AmountsOf(items, name, unit))
    ensures SumDistinct(AmountsOf(items, name, unit)) == Sum(AmountsOf(items, name, unit))
  {
    DedupOfDistinct(AmountsOf(items, name, unit));
  }

  /** A group's total depends only on which amounts occur in it, not on how often. */
  lemma TotalDependsOnAmountSet(a: seq<CartItem>, b: seq<CartItem>, name: string, unit: string)
    requires forall x :: x in AmountsOf(a, name, unit) ==> x in AmountsOf(b, name, unit)
    requires forall x :: x in AmountsOf(b, name, unit) ==> x in AmountsOf(a, name, unit)
    ensures SumDistinct(AmountsOf(a, name, unit)) == SumDistinct(AmountsOf(b, name, unit))
  {
    SumDistinctOfSameSet(AmountsOf(a, name, unit), AmountsOf(b, name, unit));
  }

  /** Two recipes in the cart that each use 200 g of flour give one line of 200 g, not
      400 g: the distinct sum counts the repeated amount once. */
  lemma FlourExample(amounts: seq<AmountRow>, ingredients: seq<IngredientRow>, carts: seq<UserRecipe>)
    requires amounts == [AmountRow(1, 10, 200), AmountRow(2, 10, 200)]
    requires ingredients == [IngredientRow(10, "Flour", "g")]
    requires carts == [UserRecipe(5, 1), UserRecipe(5, 2)]
    ensures ShoppingList(amounts, ingredients, carts, 5) == [Group("Flour", "g", 200)]
    ensures Sum(AmountsOf(CartItems(amounts, ingredients), "Flour", "g")) == 400
  {
    FilterKeepsAll(amounts, InCartOf(carts, 5));
    var item := CartItem("Flour", "g", 200);
    var items := CartItems(amounts, ingredients);
    assert items == [item, item] by {
      assert IngredientById(ingredients, 10) == Some(ingredients[0]);
      assert amounts[1..] == [AmountRow(2, 10, 200)];
      assert CartItems(amounts[1..], ingredients) == [item] by {
        assert amounts[1..][1..] == [];
      }
    }
    var keys := ItemKeys(items);
    assert keys == [("Flour", "g"), ("Flour", "g")];
    assert Dedup(keys) == [("Flour", "g")] by {
      assert keys[1..] == [("Flour", "g")];
      assert keys[0] in keys[1..];
      assert keys[1..][1..] == [];
      assert Dedup(keys[1..]) == [("Flour", "g")];
    }
    var a := AmountsOf(items, "Flour", "g");
    assert a == [200, 200] by {
      assert items[1..] == [item];
      assert AmountsOf(items[1..], "Flour", "g") == [200] by {
        assert items[1..][1..] == [];
      }
    }
    assert Dedup(a) == [200] by {
      assert a[1..] == [200];
      assert a[0] in a[1..];
      assert a[1..][1..] == [];
      assert Dedup(a[1..]) == [200];
    }
    assert Sum(a) == 400 by {
      assert a[1..] == [200];
      assert a[1..][1..] == [];
      assert Sum(a[1..]) == 200;
    }
    assert Sum([200]) == 200 by {
      assert [200][1..] == [];
    }
  }

  // ---------------------------------------------------------------- shopping list lines

  /** The integer a string spells: an optional minus sign, then decimal digits. */
  function IntValue(s: string): Option<int> {
    if s != [] && s[0] == '-' && AllDigits(s[1..]) then Some(-(DecimalValue(s[1..]) as int))
    else if AllDigits(s) then Some(DecimalValue(s))
    else None
  }

  /** `str(n)` for any integer; it reads back as `n`. */
  function IntToDecimal(n: int): (r: string)
    ensures |r| >= 1
    ensures IntValue(r) == Some(n)
  {
    if n < 0 then
      var d := NatToDecimal(-n);
      DecimalRoundTrip(-n);
      assert ("-" + d)[1..] == d;
      "-" + d
    else
      DecimalRoundTrip(n);
      NatToDecimal(n)
  }

  /** The text of line `i` (counting from 0): `"{i + 1}) {name} - {total} {unit}"`. */
  function FormatLine(i: nat, g: Group): (r: string)
    ensures LineNumber(r) == Some(i + 1)
  {
    var d := NatToDecimal(i + 1);
    LineTextNumber(d, g.name, IntToDecimal(g.total), g.unit);
    DecimalRoundTrip(i + 1);
    LineText(d, g.name, IntToDecimal(g.total), g.unit)
  }

  /** The f-string of a line, from its number, name, total and unit. */
  function LineText(d: string, name: string, e: string, unit: string): string {
    d + (") " + (name + (" - " + (e + (" " + unit)))))
  }

  /** `r` holds, in this order, the digits `d`, `") "`, the name, `" - "`, the text `e` and,
      after one blank, the unit. */
  predicate LineSlices(r: string, d: string, name: string, e: string, unit: string) {
    var n0 := |d| + 2;
    var n1 := n0 + |name|;
    var n2 := n1 + 3;
    var n3 := n2 + |e|;
    && |r| == n3 + 1 + |unit|
    && r[..|d|] == d && r[|d|..n0] == ") "
    && r[n0..n1] == name && r[n1..n2] == " - "
    && r[n2..n3] == e && r[n3..] == " " + unit
  }

  /** Line `i` holds the number `i + 1`, the name, the total and the unit where the
      f-string puts them: the name starts at offset `|str(i + 1)| + 2`, the total's digits
      follow `" - "` and read back as the total, and the line ends with a blank and the
      unit. */
  lemma FormatLineFields(i: nat, g: Group)
    ensures var e := IntToDecimal(g.total);
      LineSlices(FormatLine(i, g), NatToDecimal(i + 1), g.name, e, g.unit) && IntValue(e) == Some(g.total)
  {
    FieldsOfLine(NatToDecimal(i + 1), g.name, IntToDecimal(g.total), g.unit, FormatLine(i, g));
  }

  /** The first line of the flour example: `"1) Flour - 200 g"`. */
  lemma FlourLine()
    ensures FormatLine(0, Group("Flour", "g", 200)) == "1) Flour - 200 g"
  {
    var d, e := NatToDecimal(1), IntToDecimal(200);
    assert d == "1";
    TwoHundred();
    assert FormatLine(0, Group("Flour", "g", 200)) == LineText(d, "Flour", e, "g");
  }

  lemma TwoHundred()
    ensures IntToDecimal(200) == "200"
  {
    assert NatToDecimal(20) == NatToDecimal(2) + "0";
    assert NatToDecimal(200) == NatToDecimal(20) + "0";
  }

  /** If `r` continues at offset `a` with `x` and then `y`, then `x` sits at `a` and `y`
      follows it. */
  lemma SplitAt(r: string, a: nat, x: string, y: string)
    requires a <= |r| && r[a..] == x + y
    ensures a + |x| <= |r| && r[a..a + |x|] == x && r[a + |x|..] == y
  {
    assert r[a..a + |x|] == r[a..][..|x|];
    assert r[a + |x|..] == r[a..][|x|..];
  }

  lemma FieldsOfLine(d: string, name: string, e: string, unit: string, r: string)
    requires r == LineText(d, name, e, unit)
    ensures LineSlices(r, d, name, e, unit)
  {
    var t4 := e + (" " + unit);
    var t3 := " - " + t4;
    var t2 := name + t3;
    var t1 := ") " + t2;
    var n0 := |d| + 2;
    var n1 := n0 + |name|;
    var n2 := n1 + 3;
    assert r[0..] == d + t1;
    SplitAt(r, 0, d, t1);
    SplitAt(r, |d|, ") ", t2);
    SplitAt(r, n0, name, t3);
    SplitAt(r, n1, " - ", t4);
    SplitAt(r, n2, e, " " + unit);
  }

  /** The lines of the shopping list, numbered by `enumerate`: line `i` is the formatted
      group `i`. */
  function FormatLines(groups: seq<Group>): (r: seq<string>)
    ensures |r| == |groups|
    ensures forall i :: 0 <= i < |groups| ==> r[i] == FormatLine(i, groups[i])
  {
    seq(|groups|, i requires 0 <= i < |groups| => FormatLine(i, groups[i]))
  }

  /** The longest prefix of `s` made of digits. */
  function LeadingDigits(s: string): (d: string)
    ensures |d| <= |s| && d == s[..|d|] && AllDigits(d)
    ensures |d| < |s| ==> !IsDigit(s[|d|])
  {
    if s != [] && IsDigit(s[0]) then [s[0]] + LeadingDigits(s[1..]) else []
  }

  /** The number a line starts with: its leading digits, when a `)` follows them. */
  function LineNumber(line: string): Option<nat> {
    var d := LeadingDigits(line);
    if d != [] && |d| < |line| && line[|d|] == ')' then Some(DecimalValue(d)) else None
  }

  /** A line whose text starts with the digits `d` reads back as the number `d` spells. */
  lemma LineTextNumber(d: string, name: string, e: string, unit: string)
    requires d != [] && AllDigits(d)
    ensures LineNumber(LineText(d, name, e, unit)) == Some(DecimalValue(d))
  {
    var t := ") " + (name + (" - " + (e + (" " + unit))));
    LeadingDigitsOfNumber(d, t);
    assert (d + t)[|d|] == ')';
  }

  lemma {:induction false} LeadingDigitsOfNumber(d: string, t: string)
    requires AllDigits(d) && (t == [] || !IsDigit(t[0]))
    ensures LeadingDigits(d + t) == d
    decreases |d|
  {
    if d == [] {
      assert d + t == t;
    } else {
      assert (d + t)[1..] == d[1..] + t;
      LeadingDigitsOfNumber(d[1..], t);
    }
  }

  /** Line `i` of the list reads back as number `i + 1`: the lines are numbered
      consecutively from 1. */
  lemma LineNumbersConsecutive(groups: seq<Group>)
    ensures forall i :: 0 <= i < |groups| ==> LineNumber(FormatLines(groups)[i]) == Some(i + 1)
  {
  }

}
