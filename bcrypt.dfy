/** The password-hashing library, as an abstract capability. Salting and
    cost factors are not modelled: a hasher is a function from a password to
    its stored hash, and the empty string stands for a falsy result. */
module Bcrypt {

  type Hasher = string -> string

  /** `bcrypt.compare(data, encrypted)`: true exactly when the stored hash
      is the hash of the password. */
  predicate Compare(data: string, encrypted: string, hash: Hasher): (r: bool)
    ensures r <==> encrypted == hash(data)
  {
    encrypted == hash(data)
  }

  /** The error `bcrypt.compare` rejects with when the password is
      `undefined` or `null`. */
  const ArgumentsRequired: string := "data and hash arguments required"
}
