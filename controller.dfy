/**
 * The TypeORM-era base controller (src/controllers/controller.ts): how a
 * handler's result becomes a status and a JSON body, and how an entity's
 * validation outcome is settled.
 */
module Controller {
  import opened Wrappers
  import opened ClassValidator

  /** One entry of a `{errors: [...]}` body, shaped like express-validator's: the property and its first message. */
  datatype FieldMessage = FieldMessage(param: string, msg: Option<string>)

  /** The values handlers pass as `data`. */
  datatype Data =
    | Undefined
    | Message(message: string)
    /** `{user, token}`, the user in its serialized form. */
    | Session(user: map<string, string>, token: string)
    /** A class-validator error list. */
    | Errors(validationErrors: seq<ValidationError>)
    /** `{errors: [{param, msg}]}`. */
    | FieldErrors(fields: seq<FieldMessage>)
    /** A thrown value that is not an array, such as a failed insert. */
    | Thrown(name: string)

  datatype Reply = Reply(status: int, body: Data)

  const EntityNotFound := "Entity not found"

  /** `Object.values(e.constraints)[0]`: undefined when there is none. */
  function FirstMessage(constraints: seq<Constraint>): (m: Option<string>)
    ensures m.None? <==> constraints == []
    ensures m.Some? ==> m.value == constraints[0].message
  {
    if constraints == [] then None else Some(constraints[0].message)
  }

  /** The rewriting of a validation error list entry by entry. */
  function AsFieldMessages(errors: seq<ValidationError>): (fields: seq<FieldMessage>)
    ensures |fields| == |errors|
    ensures forall i :: 0 <= i < |errors| ==>
      fields[i].param == errors[i].property && fields[i].msg == FirstMessage(errors[i].constraints)
  {
    seq(|errors|, i requires 0 <= i < |errors| => FieldMessage(errors[i].property, FirstMessage(errors[i].constraints)))
  }

  /**
   * `handleResult(res, data, status = 200, custom = false)`. With 422 and
   * not custom, the data is mapped as an array into `{errors: [...]}`; data
   * that is not an array makes `.map` throw a TypeError. Undefined data
   * (not custom) gives 404 `Entity not found`. Anything else is sent as is
   * with the given status.
   */
  function HandleResult(data: Data, status: int := 200, custom: bool := false): (r: Result<Reply, string>)
    ensures status == 422 && !custom ==> (r.Success? <==> data.Errors?)
    ensures status == 422 && !custom && data.Errors? ==>
      r.value == Reply(422, FieldErrors(AsFieldMessages(data.validationErrors)))
    ensures status != 422 && !custom && data.Undefined? ==> r == Success(Reply(404, Message(EntityNotFound)))
    ensures custom || (status != 422 && !data.Undefined?) ==> r == Success(Reply(status, data))
  {
    if status == 422 && !custom then
      if data.Errors? then Success(Reply(422, FieldErrors(AsFieldMessages(data.validationErrors))))
      else Failure("TypeError")
    else if data.Undefined? && !custom then
      Success(Reply(404, Message(EntityNotFound)))
    else
      Success(Reply(status, data))
  }

  /** Default arguments: status 200, data untouched once it is defined. */
  lemma DefaultStatusIsOk(data: Data)
    requires !data.Undefined?
    ensures HandleResult(data) == Success(Reply(200, data))
  {
  }

  /** `custom` passes every status and every data through, 422 and undefined included. */
  lemma CustomBypassesRewrites(data: Data, status: int)
    ensures HandleResult(data, status, true) == Success(Reply(status, data))
  {
  }

  /** The settled `isValid` promise. */
  datatype Settled<T> = Resolved(entity: T) | Rejected(errors: seq<ValidationError>)

  /** `isValid(entity)`, given what `validate(entity)` found: resolves with the entity iff nothing was found. */
  function IsValid<T>(entity: T, errors: seq<ValidationError>): (r: Settled<T>)
    ensures r.Resolved? <==> errors == []
    ensures r.Resolved? ==> r.entity == entity
    ensures r.Rejected? ==> r.errors == errors
  {
    if |errors| > 0 then Rejected(errors) else Resolved(entity)
  }
}
