/** The recipe tables (backend/recipes/models.py): text normalisation of ingredients and
    tags, the colour and slug validators, the minimum-value validators, every unique and
    check constraint, and the default orderings. */
module RecipesModels {
  import opened Text
  import opened Seqs
  import opened Common
  import opened UsersModels

  type IngredientId = nat
  type TagId = nat
  type RecipeId = nat

  // ---------------------------------------------------------------- normalisation

  /** The ingredient name `clean` stores: stripped, lower-cased, then capitalised. It
      has no whitespace at either end, starts with a character that is not a lower-case
      letter, has no upper-case letter after that, and spells the stripped input up to
      case. */
  function NormaliseName(s: string): (r: string)
    ensures r == [] || (!IsSpace(r[0]) && !IsSpace(r[|r| - 1]))
    ensures r != [] ==> !IsLower(r[0])
    ensures forall k :: 1 <= k < |r| ==> !IsUpper(r[k])
    ensures Lower(r) == Lower(Strip(s))
  {
    CapitalizedShape(Strip(s));
    Capitalize(Lower(Strip(s)))
  }

  /** The `.strip().lower()` that `clean` applies to a measurement unit and to a tag's
      name and slug. It spells the stripped input up to case, has no whitespace at
      either end and contains no upper-case letter. */
  function StripLower(s: string): (r: string)
    ensures r == [] || (!IsSpace(r[0]) && !IsSpace(r[|r| - 1]))
    ensures forall k :: 0 <= k < |r| ==> !IsUpper(r[k])
    ensures |r| == |Strip(s)|
    ensures Lower(r) == Lower(Strip(s))
  {
    StrippedLower(Strip(s));
    LowerIdempotent(Strip(s));
    Lower(Strip(s))
  }

  /** Lower-casing keeps a string without outer whitespace so. */
  lemma StrippedLower(t: string)
    requires t == [] || (!IsSpace(t[0]) && !IsSpace(t[|t| - 1]))
    ensures var r := Lower(t); r == [] || (!IsSpace(r[0]) && !IsSpace(r[|r| - 1]))
  {
    var r := Lower(t);
    assert r == [] || (r[0] == ToLower(t[0]) && r[|r| - 1] == ToLower(t[|t| - 1]));
  }

  /** Cleaning an already clean ingredient name changes nothing. */
  lemma NormaliseNameIdempotent(s: string)
    ensures NormaliseName(NormaliseName(s)) == NormaliseName(s)
  {
    var t := Strip(s);
    var r := NormaliseName(s);
    CapitalizedShape(t);
    StripOfStripped(r);
    LowerIdempotent(t);
  }

  /** Cleaning an already clean unit, tag name or slug changes nothing. */
  lemma StripLowerIdempotent(s: string)
    ensures StripLower(StripLower(s)) == StripLower(s)
  {
    var t := Strip(s);
    CaseMappingKeepsStripped(t);
    LowerIdempotent(t);
  }

  /** A leading blank goes: " salmon" is stored as "Salmon". */
  lemma SalmonExample()
    ensures NormaliseName(" salmon") == "Salmon"
  {
    assert Strip(" salmon") == "salmon" by {
      assert TrimStart(" salmon") == TrimStart("salmon") == "salmon";
      assert TrimEnd("salmon") == "salmon";
    }
    CapitalizedSalmon();
  }

  lemma CapitalizedSalmon()
    ensures Capitalize(Lower("salmon")) == "Salmon"
    ensures Capitalize(Lower("SALMON")) == "Salmon"
  {
    LowerSalmon();
    var s := "salmon";
    assert s[1..] == "almon";
    assert Lower("almon") == "almon";
    assert Capitalize(s) == [ToUpper(s[0])] + Lower(s[1..]);
  }

  lemma LowerSalmon()
    ensures Lower("salmon") == "salmon"
    ensures Lower("SALMON") == "salmon"
  {
    var u := "SALMON";
    var l := Lower(u);
    assert l[0] == 's' && l[1] == 'a' && l[2] == 'l' && l[3] == 'm' && l[4] == 'o' && l[5] == 'n';
    assert Lower("salmon") == "salmon";
  }

  /** Blanks at both ends go and the case is normalised: "  SALMON  " is stored as "Salmon". */
  lemma ShoutedSalmonExample()
    ensures NormaliseName("  SALMON  ") == "Salmon"
  {
    ShoutedSalmonTrimmedStart();
    ShoutedSalmonTrimmedEnd();
    assert Strip("  SALMON  ") == "SALMON";
    CapitalizedSalmon();
  }

  lemma ShoutedSalmonTrimmedStart()
    ensures TrimStart("  SALMON  ") == "SALMON  "
  {
    var a, b, c := "  SALMON  ", " SALMON  ", "SALMON  ";
    assert IsSpace(a[0]) && a[1..] == b;
    assert IsSpace(b[0]) && b[1..] == c;
    assert !IsSpace(c[0]);
    assert TrimStart(c) == c;
    assert TrimStart(b) == TrimStart(c);
    assert TrimStart(a) == TrimStart(b);
  }

  lemma ShoutedSalmonTrimmedEnd()
    ensures TrimEnd("SALMON  ") == "SALMON"
  {
    assert "SALMON  "[..7] == "SALMON ";
    assert "SALMON "[..6] == "SALMON";
    assert TrimEnd("SALMON") == "SALMON";
  }

  /** An ingredient object before it is saved; `Clean` is its `clean()`. */
  class Ingredient {
    var name: string
    var measurementUnit: string

    constructor (name: string, measurementUnit: string)
      ensures this.name == name && this.measurementUnit == measurementUnit
    {
      this.name := name;
      this.measurementUnit := measurementUnit;
    }

    method Clean()
      modifies this
      ensures name == NormaliseName(old(name))
      ensures measurementUnit == StripLower(old(measurementUnit))
    {
      name := Capitalize(Lower(Strip(name)));
      measurementUnit := Lower(Strip(measurementUnit));
    }
  }

  /** A tag object before it is saved; `Clean` is its `clean()`, which leaves `color` alone. */
  class Tag {
    var name: string
    var color: string
    var slug: string

    constructor (name: string, color: string, slug: string)
      ensures this.name == name && this.color == color && this.slug == slug
    {
      this.name := name;
      this.color := color;
      this.slug := slug;
    }

    method Clean()
      modifies this
      ensures name == StripLower(old(name))
      ensures slug == StripLower(old(slug))
      ensures color == old(color)
    {
      name := Lower(Strip(name));
      slug := Lower(Strip(slug));
    }
  }

  // ---------------------------------------------------------------- validators

  predicate IsAsciiAlnum(c: char) {
    ('a' <= c <= 'z') || ('A' <= c <= 'Z') || ('0' <= c <= '9')
  }

  /** The colour validator `^\#[a-zA-Z0-9]{6}$` (with `max_length=7`): a `#` and six
      ASCII letters or digits, so letters beyond `F` are accepted too. */
  predicate IsValidColor(c: string) {
    |c| == 7 && c[0] == '#' && forall k :: 1 <= k < 7 ==> IsAsciiAlnum(c[k])
  }

  predicate IsSlugChar(c: char) {
    c == '-' || c == '_' || IsAsciiAlnum(c)
  }

  /** The slug validator `^[-a-zA-Z0-9_]+$`, read as a full match. */
  predicate IsValidSlug(s: string) {
    |s| >= 1 && forall k :: 0 <= k < |s| ==> IsSlugChar(s[k])
  }

  /** `Tag.clean` keeps a valid slug valid: a slug has no whitespace to strip and
      lower-casing maps slug characters to slug characters. */
  lemma CleanKeepsSlugValid(s: string)
    requires IsValidSlug(s)
    ensures StripLower(s) == Lower(s)
    ensures IsValidSlug(StripLower(s))
  {
    assert !IsSpace(s[0]) && !IsSpace(s[|s| - 1]);
    StripOfStripped(s);
  }

  /** The colour validator accepts upper- and lower-case letters alike: a value is
      valid exactly when its lower-cased spelling is. */
  lemma ColorCaseInsensitive(c: string)
    ensures IsValidColor(c) <==> IsValidColor(Lower(c))
  {
    var l := Lower(c);
    forall k | 0 <= k < |c| ensures (IsAsciiAlnum(c[k]) <==> IsAsciiAlnum(l[k])) && (c[k] == '#' <==> l[k] == '#') {
      assert l[k] == ToLower(c[k]);
    }
  }

  lemma ColorExamples()
    ensures IsValidColor("#49B64E")
    ensures IsValidColor("#GGGGGG")
    ensures !IsValidColor("#49B64")
    ensures !IsValidColor("#49B64E0")
    ensures !IsValidColor("049B64E")
    ensures !IsValidColor("#49B6-E")
  {
    assert !IsAsciiAlnum("#49B6-E"[5]);
  }

  /** `MinValueValidator(1)` on `cooking_time` and on `amount`. */
  predicate AtLeastOne(n: int) {
    n >= 1
  }

  // ---------------------------------------------------------------- ingredients

  datatype IngredientRow = IngredientRow(id: IngredientId, name: string, measurementUnit: string)

  /** The ingredient table's constraints: distinct ids, (name, unit) unique, and neither
      the name nor the unit empty. */
  predicate IngredientsValid(rows: seq<IngredientRow>) {
    && (forall i, j :: 0 <= i < j < |rows| ==> rows[i].id != rows[j].id)
    && (forall i, j :: 0 <= i < j < |rows| ==>
          rows[i].name != rows[j].name || rows[i].measurementUnit != rows[j].measurementUnit)
    && (forall k :: 0 <= k < |rows| ==> rows[k].name != [] && rows[k].measurementUnit != [])
  }

  /** The ingredients in their default order, by name. */
  ghost predicate InNameOrder(rows: seq<IngredientRow>) {
    SortedBy(rows, (a: IngredientRow, b: IngredientRow) => LexLe(a.name, b.name))
  }

  predicate HasIngredient(rows: seq<IngredientRow>, name: string, measurementUnit: string) {
    exists k :: 0 <= k < |rows| && rows[k].name == name && rows[k].measurementUnit == measurementUnit
  }

  /** The constraint an ingredient insert violates, if any. With several violated, the
      model reports the two check constraints in declaration order before the unique
      constraint, as SQLite does; which one is reported is up to the database engine. */
  function IngredientInsertError(rows: seq<IngredientRow>, name: string, measurementUnit: string)
    : (e: Option<IntegrityError>)
    ensures e.None? <==> name != [] && measurementUnit != [] && !HasIngredient(rows, name, measurementUnit)
    ensures name == [] ==> e == Some(CheckViolation("recipes_ingredient_name_empty"))
  {
    if name == [] then Some(CheckViolation("recipes_ingredient_name_empty"))
    else if measurementUnit == [] then Some(CheckViolation("recipes_ingredient_measurement_unit_empty"))
    else if HasIngredient(rows, name, measurementUnit) then Some(UniqueViolation("recipes_ingredient_unique_for_ingredient"))
    else None
  }

  /** An insert the constraints admit, with a fresh id, keeps the table valid. */
  lemma IngredientInsertKeepsValid(rows: seq<IngredientRow>, row: IngredientRow)
    requires IngredientsValid(rows)
    requires IngredientInsertError(rows, row.name, row.measurementUnit).None?
    requires forall k :: 0 <= k < |rows| ==> rows[k].id != row.id
    ensures IngredientsValid(rows + [row])
  {
  }

  /** The ingredient table; ids come from an auto-increment counter. */
  class IngredientTable {
    var rows: seq<IngredientRow>
    var nextId: nat

    ghost predicate Valid()
      reads this
    {
      IngredientsValid(rows) && forall k :: 0 <= k < |rows| ==> rows[k].id < nextId
    }

    constructor ()
      ensures Valid() && rows == []
    {
      rows := [];
      nextId := 1;
    }

    /** `Ingredient.objects.create(name=..., measurement_unit=...)`. */
    method Insert(name: string, measurementUnit: string) returns (r: InsertOutcome)
      requires Valid()
      modifies this
      ensures Valid()
      ensures IngredientInsertError(old(rows), name, measurementUnit).Some? ==>
        && r == Refused(IngredientInsertError(old(rows), name, measurementUnit).value)
        && rows == old(rows) && nextId == old(nextId)
      ensures IngredientInsertError(old(rows), name, measurementUnit).None? ==>
        && r == Inserted(old(nextId))
        && rows == old(rows) + [IngredientRow(old(nextId), name, measurementUnit)]
        && nextId == old(nextId) + 1
    {
      var e := IngredientInsertError(rows, name, measurementUnit);
      if e.Some? {
        r := Refused(e.value);
      } else {
        IngredientInsertKeepsValid(rows, IngredientRow(nextId, name, measurementUnit));
        rows := rows + [IngredientRow(nextId, name, measurementUnit)];
        r := Inserted(nextId);
        nextId := nextId + 1;
      }
    }
  }

  // ---------------------------------------------------------------- tags

  datatype TagRow = TagRow(id: TagId, name: string, color: string, slug: string)

  /** The tag table's constraints: distinct ids; `name`, `color` and `slug` each unique
      (and hence the triple too); none of the three empty. */
  predicate TagsValid(rows: seq<TagRow>) {
    && (forall i, j :: 0 <= i < j < |rows| ==> rows[i].id != rows[j].id)
    && (forall i, j :: 0 <= i < j < |rows| ==> rows[i].name != rows[j].name)
    && (forall i, j :: 0 <= i < j < |rows| ==> rows[i].color != rows[j].color)
    && (forall i, j :: 0 <= i < j < |rows| ==> rows[i].slug != rows[j].slug)
    && (forall k :: 0 <= k < |rows| ==> rows[k].name != [] && rows[k].color != [] && rows[k].slug != [])
  }

  predicate TagColumnTaken(rows: seq<TagRow>, name: string, color: string, slug: string) {
    exists k :: 0 <= k < |rows| && (rows[k].name == name || rows[k].color == color || rows[k].slug == slug)
  }

  /** The constraint a tag insert violates, if any. With several violated, the model
      reports the check constraints in declaration order, then the unique columns, as
      SQLite does; which one is reported is up to the database engine. */
  function TagInsertError(rows: seq<TagRow>, name: string, color: string, slug: string)
    : (e: Option<IntegrityError>)
    ensures e.None? <==> name != [] && color != [] && slug != [] && !TagColumnTaken(rows, name, color, slug)
    ensures name == [] ==> e == Some(CheckViolation("recipes_tag_name_empty"))
  {
    if name == [] then Some(CheckViolation("recipes_tag_name_empty"))
    else if color == [] then Some(CheckViolation("recipes_tag_color_empty"))
    else if slug == [] then Some(CheckViolation("recipes_tag_slug_empty"))
    else if exists k :: 0 <= k < |rows| && rows[k].name == name then Some(UniqueViolation("name"))
    else if exists k :: 0 <= k < |rows| && rows[k].color == color then Some(UniqueViolation("color"))
    else if exists k :: 0 <= k < |rows| && rows[k].slug == slug then Some(UniqueViolation("slug"))
    else None
  }

  /** The tag table. */
  class TagTable {
    var rows: seq<TagRow>
    var nextId: nat

    ghost predicate Valid()
      reads this
    {
      TagsValid(rows) && forall k :: 0 <= k < |rows| ==> rows[k].id < nextId
    }

    constructor ()
      ensures Valid() && rows == []
    {
      rows := [];
      nextId := 1;
    }

    /** `Tag.objects.create(name=..., color=..., slug=...)`. */
    method Insert(name: string, color: string, slug: string) returns (r: InsertOutcome)
      requires Valid()
      modifies this
      ensures Valid()
      ensures TagInsertError(old(rows), name, color, slug).Some? ==>
        && r == Refused(TagInsertError(old(rows), name, color, slug).value)
        && rows == old(rows) && nextId == old(nextId)
      ensures TagInsertError(old(rows), name, color, slug).None? ==>
        && r == Inserted(old(nextId))
        && rows == old(rows) + [TagRow(old(nextId), name, color, slug)]
        && nextId == old(nextId) + 1
    {
      var e := TagInsertError(rows, name, color, slug);
      if e.Some? {
        r := Refused(e.value);
      } else {
        var s := rows + [TagRow(nextId, name, color, slug)];
        forall i, j | 0 <= i < j < |s|
          ensures s[i].name != s[j].name && s[i].color != s[j].color && s[i].slug != s[j].slug
        {
          if j == |rows| { assert !TagColumnTaken(rows, name, color, slug); }
        }
        rows := s;
        r := Inserted(nextId);
        nextId := nextId + 1;
      }
    }
  }

  // ---------------------------------------------------------------- recipes

  /** A recipe row; `pubDate` is set on creation and never changed; the image is left out. */
  datatype RecipeRow = RecipeRow(id: RecipeId, name: string, author: UserId, text: string, pubDate: int, cookingTime: int)

  /** What every stored recipe row satisfies: distinct ids and (name, author) unique
      (the table's constraints), a non-empty name (its check constraint), and a cooking
      time of at least one minute. The last is the `MinValueValidator(1)` of the
      serializer's field, not a database constraint; it holds of every row because
      rows are only written through the validated create and update. */
  predicate RecipesValid(rows: seq<RecipeRow>) {
    && (forall i, j :: 0 <= i < j < |rows| ==> rows[i].id != rows[j].id)
    && (forall i, j :: 0 <= i < j < |rows| ==> rows[i].name != rows[j].name || rows[i].author != rows[j].author)
    && (forall k :: 0 <= k < |rows| ==> rows[k].name != [] && AtLeastOne(rows[k].cookingTime))
  }

  /** The recipes in their default order, newest first. */
  ghost predicate NewestFirst(rows: seq<RecipeRow>) {
    SortedBy(rows, (a: RecipeRow, b: RecipeRow) => a.pubDate >= b.pubDate)
  }

  class RecipeTable {
    var rows: seq<RecipeRow>
    var nextId: nat

    ghost predicate Valid()
      reads this
    {
      RecipesValid(rows) && forall k :: 0 <= k < |rows| ==> rows[k].id < nextId
    }

    constructor ()
      ensures Valid() && rows == []
    {
      rows := [];
      nextId := 1;
    }
  }

  // ---------------------------------------------------------------- ingredient amounts

  /** An ingredient of a recipe with its quantity; `amount` defaults to 1. */
  datatype AmountRow = AmountRow(recipe: RecipeId, ingredient: IngredientId, amount: int := 1)

  /** What every stored amount row satisfies: (recipe, ingredient) unique (the table's
      constraint) and an amount of at least 1. The latter is the field's
      `MinValueValidator(1)`, not a database constraint. */
  predicate AmountsValid(rows: seq<AmountRow>) {
    && (forall i, j :: 0 <= i < j < |rows| ==> rows[i].recipe != rows[j].recipe || rows[i].ingredient != rows[j].ingredient)
    && (forall k :: 0 <= k < |rows| ==> AtLeastOne(rows[k].amount))
  }

  class AmountTable {
    var rows: seq<AmountRow>

    ghost predicate Valid()
      reads this
    {
      AmountsValid(rows)
    }

    constructor ()
      ensures Valid() && rows == []
    {
      rows := [];
    }
  }

  // ---------------------------------------------------------------- tags of recipes

  /** A row of the recipe-to-tag many-to-many relation. */
  datatype TagLink = TagLink(recipe: RecipeId, tag: TagId)

  class TagLinkTable {
    var rows: seq<TagLink>

    ghost predicate Valid()
      reads this
    {
      NoDuplicates(rows)
    }

    constructor ()
      ensures Valid() && rows == []
    {
      rows := [];
    }
  }

  // ---------------------------------------------------------------- favourites and carts

  /** A row of the Favorite or the ShoppingCart table: `recipe` is on `user`'s list. */
  datatype UserRecipe = UserRecipe(user: UserId, recipe: RecipeId)

  /** The Favorite table or the ShoppingCart table: (recipe, user) unique. */
  class RecipeListTable {
    var rows: seq<UserRecipe>

    ghost predicate Valid()
      reads this
    {
      NoDuplicates(rows)
    }

    constructor ()
      ensures Valid() && rows == []
    {
      rows := [];
    }
  }
}
