/** Types shared by every part of the model: optional values, identities, and
    the token-verification oracle. */
module Common {

  /** A value that may be absent, standing for JavaScript's `undefined`/`null`. */
  datatype Option<+T> = None | Some(value: T)

  /** The string form of a user record's database id. */
  type UserId = string

  /** A signed bearer token, opaque to this model. */
  type Token = string

  /** JavaScript truthiness of a value that is either absent or a string:
      `undefined`, `null` and `""` are all falsy. */
  predicate Truthy(s: Option<string>)
  {
    s.Some? && s.value != ""
  }

  /** `verifyToken` of config/jwtToken.js: signature and expiry checking are not
      modelled; every failure (the library throws) comes back as `None`, and a
      good token yields the id it was signed for. */
  type Verifier = Token -> Option<UserId>
}
