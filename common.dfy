/** Outcome types shared by the models and the views: optional values, storage-level
    integrity errors, field-keyed validation errors and the HTTP outcomes of the
    relation toggles. */
module Common {

  datatype Option<T> = None | Some(value: T)

  /** A constraint the storage layer refuses an insert for, named as the migration
      names it (`<app>_<model>_<suffix>`, or `<field>` for a `unique=True` column). */
  datatype IntegrityError =
    | UniqueViolation(constraint: string)
    | CheckViolation(constraint: string)

  /** The outcome of a constraint-checked insert: the new row's id, or the violation. */
  datatype InsertOutcome = Inserted(id: nat) | Refused(error: IntegrityError)

  /** Why a validation rule refused a request body. */
  datatype Reason =
    | Missing            // an empty ingredient or tag list
    | NoIngredientId     // an ingredient entry without an id
    | UnknownIngredient(id: int)
    | RepeatedIngredient(id: int)
    | AmountBelowOne(id: int)
    | RepeatedTags
    | NameTaken          // the author already has a recipe of that name
    | UnknownChoice      // a filter value that names no row
    | BelowMinimum       // a MinValueValidator
    | Blank              // an empty CharField

  /** A `ValidationError({field: message})`: HTTP 400 with a field-keyed message. */
  datatype FieldError = FieldError(field: string, reason: Reason)

  datatype Validated<T> = Accepted(value: T) | Rejected(error: FieldError)

  /** Why a relation toggle refused: HTTP 400 with `{'error': message}`. */
  datatype Conflict =
    | AlreadyAdded       // the recipe is already in the list
    | NotInList          // the recipe is not in the list
    | SelfSubscription   // a user cannot subscribe to themself
    | AlreadySubscribed  // the subscription exists already
    | NotSubscribed      // there is no such subscription

  /** The HTTP outcome of a toggle: 201, 204 or 400. */
  datatype Status = Created | NoContent | Refusal(conflict: Conflict)

  /** POST adds a row, DELETE removes it. */
  datatype Mode = Add | Remove
}
