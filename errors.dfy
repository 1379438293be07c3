/**
 * The errors the core raises or lets through
 * (src/shared/domain/errors/not-found.error.ts,
 * src/shared/domain/validators/validator-error.ts).
 */
module Errors {

  /** The `id` argument of `NotFoundError`: one id, or an array of ids. */
  datatype IdArgument = One(id: string) | Many(ids: seq<string>)

  /** `parts.join(separator)`. */
  function Join(parts: seq<string>, separator: string): string
    decreases |parts|
  {
    if |parts| == 0 then ""
    else if |parts| == 1 then parts[0]
    else parts[0] + separator + Join(parts[1..], separator)
  }

  /** The ids as the message shows them: an array joined with ", ". */
  function IdText(id: IdArgument): string {
    match id
    case One(s) => s
    case Many(ids) => Join(ids, ", ")
  }

  /** The text before the ids in every not-found message. */
  function MessagePrefix(entityName: string): string {
    "Entity " + entityName + " Not found using id "
  }

  /** The error thrown when no stored entity has the requested id. */
  datatype NotFoundError = NotFoundError(name: string, message: string)

  /** `new NotFoundError(id, entity)`, where `entityName` is `entity.name`. */
  function NewNotFoundError(id: IdArgument, entityName: string): (e: NotFoundError)
    ensures e.name == "NotFoundError"
    ensures |e.message| == |MessagePrefix(entityName)| + |IdText(id)|
    ensures e.message[..|MessagePrefix(entityName)|] == MessagePrefix(entityName)
  {
    NotFoundError("NotFoundError", MessagePrefix(entityName) + IdText(id))
  }

  /** The id text read back from a not-found message for the given entity. */
  function IdTextOf(message: string, entityName: string): string
    requires |MessagePrefix(entityName)| <= |message|
  {
    message[|MessagePrefix(entityName)|..]
  }

  /** One id: the message is the prefix followed by that id; an empty array leaves the id part empty. */
  lemma MessageForIds(id: string, entityName: string)
    ensures NewNotFoundError(One(id), entityName).message
         == "Entity " + entityName + " Not found using id " + id
    ensures NewNotFoundError(Many([]), entityName).message == MessagePrefix(entityName)
    ensures NewNotFoundError(Many([id]), entityName).message == NewNotFoundError(One(id), entityName).message
  {
  }

  /** The message holds the ids it was built from: reading them back gives them. */
  lemma {:induction false} IdTextRoundTrip(id: IdArgument, entityName: string)
    ensures var e := NewNotFoundError(id, entityName);
            |MessagePrefix(entityName)| <= |e.message| && IdTextOf(e.message, entityName) == IdText(id)
  {
    var prefix := MessagePrefix(entityName);
    assert (prefix + IdText(id))[|prefix|..] == IdText(id);
  }

  /** For one entity class, different ids give different messages. */
  lemma MessageDeterminesIdText(a: IdArgument, b: IdArgument, entityName: string)
    requires NewNotFoundError(a, entityName) == NewNotFoundError(b, entityName)
    ensures IdText(a) == IdText(b)
  {
    IdTextRoundTrip(a, entityName);
    IdTextRoundTrip(b, entityName);
  }

  /** Total length of the parts. */
  function TotalLength(parts: seq<string>): nat
    decreases |parts|
  {
    if parts == [] then 0 else |parts[0]| + TotalLength(parts[1..])
  }

  /** Joining adds exactly one separator between neighbours and none at the ends. */
  lemma {:induction false} JoinLength(parts: seq<string>, separator: string)
    ensures |Join(parts, separator)|
         == TotalLength(parts) + (if parts == [] then 0 else (|parts| - 1) * |separator|)
    decreases |parts|
  {
    if |parts| > 1 {
      JoinLength(parts[1..], separator);
    }
  }

  /** Joining one more part appends the separator and that part. */
  lemma {:induction false} JoinAppend(parts: seq<string>, last: string, separator: string)
    requires parts != []
    ensures Join(parts + [last], separator) == Join(parts, separator) + separator + last
    decreases |parts|
  {
    var all := parts + [last];
    assert all[0] == parts[0] && all[1..] == parts[1..] + [last];
    if |parts| > 1 {
      JoinAppend(parts[1..], last, separator);
    }
  }

  /** `EntityValidatorError`: the validator's messages, field by field. */
  datatype EntityValidatorError = EntityValidatorError(errors: map<string, seq<string>>, message: string) {
    /** `count()`: the number of fields with errors. */
    function Count(): (n: nat)
      ensures n == 0 <==> errors == map[]
    {
      assert errors != map[] ==> exists k :: k in errors.Keys;
      |errors.Keys|
    }
  }

  /** `new EntityValidatorError(errors)` with the default message. */
  function NewEntityValidatorError(errors: map<string, seq<string>>): (e: EntityValidatorError)
    ensures e.errors == errors && e.message == "Validation Error"
  {
    EntityValidatorError(errors, "Validation Error")
  }
}
