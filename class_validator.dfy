/**
 * The part of class-validator the TypeORM entities use: the shape of a
 * `ValidationError` and the `@Length` rule.
 */
module ClassValidator {
  import opened Wrappers

  /** One failed constraint: its name (`isLength`, `isEmail`) and its message. */
  datatype Constraint = Constraint(name: string, message: string)

  /** A property that failed, with its failed constraints in declaration order. */
  datatype ValidationError = ValidationError(property: string, constraints: seq<Constraint>)

  /** `@Length(min, max)`: a string whose length lies in the bounds; anything else, `undefined` included, fails. */
  function Length(value: Option<string>, min: nat, max: nat): (b: bool)
    ensures value.None? ==> !b
    ensures value.Some? ==> (b <==> min <= |value.value| && |value.value| <= max)
  {
    value.Some? && min <= |value.value| <= max
  }
}
