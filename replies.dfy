/** What a handler answers instead of calling `res.status(...).json(...)`:
    a payload with its success status, or one of the error kinds the
    controllers distinguish, each mapped once to its HTTP status. */
module Replies {

  /** The rule a validation error reports. The first group are Joi rule
      names (the request validators), the second the Sequelize attribute
      validators of the record model. The message wording is not modelled. */
  datatype Rule =
    | AnyRequired | StringEmpty | StringMin | StringMax
    | NumberInteger | NumberMin | NumberPositive
    | DateMax | DateMin | CustomDateOrder
    | NotEmpty | Len | IsBefore | IsAfter | IsAfterFabricacion | MinValue

  /** One `{ field, message }` entry of a validation reply. `field` is the
      attribute or key name, "" for an error on the whole object. */
  datatype FieldError = FieldError(field: string, rule: Rule)

  /** The errors of one field, one per failed rule, in rule order. */
  function Tag(field: string, rules: seq<Rule>): (errs: seq<FieldError>)
    ensures |errs| == |rules|
    ensures forall i :: 0 <= i < |rules| ==> errs[i] == FieldError(field, rules[i])
  {
    if rules == [] then [] else [FieldError(field, rules[0])] + Tag(field, rules[1..])
  }

  datatype ErrorKind =
    | NotFound                           // the id is not in the store
    | Validation(errors: seq<FieldError>) // request schema or record validators failed
    | UnknownTipo                        // the referenced medication type does not exist
    | NegativeStock                      // a subtraction would leave a negative stock
    | DuplicateDescription               // another type already has this description
    | HasMedicamentos(count: nat)        // a type still referenced by medications
    | Internal                           // anything that reaches the generic catch

  /** The one table from error kind to HTTP status. */
  function StatusOf(e: ErrorKind): (code: int)
    ensures code == 404 <==> e.NotFound?
    ensures code == 500 <==> e.Internal?
    ensures code in {400, 404, 500}
  {
    match e
    case NotFound => 404
    case Internal => 500
    case _ => 400
  }

  datatype Reply<T> = Ok(status: int, data: T) | Err(error: ErrorKind) {
    function Status(): int {
      if Ok? then status else StatusOf(error)
    }
  }
}
