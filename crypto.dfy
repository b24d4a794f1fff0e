/**
 * The token and password helpers of the Prisma stack (src/utils/crypto.ts).
 * bcrypt and jsonwebtoken are foreign libraries: they are passed in as the
 * uninterpreted functions of an `Oracles` value, and nothing is assumed of
 * them. What is written out is the payload the server signs.
 */
module Crypto {
  import opened Wrappers
  import opened Strings

  /** The payload `generateJWT` signs: `{ exp, data: JSON.stringify(value) }`. */
  datatype Claims = Claims(exp: int, data: string)

  /**
   * `hash` is `bcrypt.hash(value, 10)`, `compare` is `bcrypt.compare`,
   * `sign` and `verify` are `jwt.sign` and `jwt.verify` with the server
   * secret; `verify` gives None where the library reports an error.
   */
  datatype Oracles = Oracles(
    hash: string -> string,
    compare: (string, string) -> bool,
    sign: Claims -> string,
    verify: string -> Option<Claims>)

  const IdPrefix := "{\"id\":"

  /** `JSON.stringify({ id })` for a numeric id. */
  function IdPayload(id: nat): string {
    IdPrefix + Decimal(id) + "}"
  }

  /** `JSON.parse(data).id` for the payloads `IdPayload` produces; None for any other text. */
  function ParseIdPayload(data: string): (r: Option<nat>)
    ensures r.Some? ==> IdPayload(r.value) == data
  {
    if |data| >= |IdPrefix| + 1 && data[..|IdPrefix|] == IdPrefix && data[|data| - 1] == '}' then
      var digits := data[|IdPrefix|..|data| - 1];
      assert data == IdPrefix + digits + "}";
      ParseNat(digits)
    else None
  }

  /** Parsing the signed `data` of a token gives back the id it was issued for. */
  lemma {:induction false} IdPayloadRoundTrip(id: nat)
    ensures ParseIdPayload(IdPayload(id)) == Some(id)
  {
    var data := IdPayload(id);
    assert data[..|IdPrefix|] == IdPrefix;
    assert data[|IdPrefix|..|data| - 1] == Decimal(id);
    ParseNatOfDecimal(id);
  }

  /** `generateJWT({ id }, exp)`: the expiry is a parameter instead of a clock reading. */
  function GenerateJWT(oracles: Oracles, id: nat, exp: int): (token: string)
    ensures forall c: Claims :: c.exp == exp && ParseIdPayload(c.data) == Some(id) ==> token == oracles.sign(c)
    ensures ParseIdPayload(IdPayload(id)) == Some(id)
  {
    IdPayloadRoundTrip(id);
    oracles.sign(Claims(exp, IdPayload(id)))
  }
}
