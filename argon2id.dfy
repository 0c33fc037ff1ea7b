/**
 * The interface of the Argon2id password-hashing library (RFC 9106) that the
 * auth package calls. The key derivation itself and the encoded-hash format
 * are not modelled: the library is a record of its three operations, and
 * what the auth package relies on it to do is stated as hypotheses
 * (`RoundTrip`, `SelfDescribing`, `Discriminating`) that lemmas require.
 */
module Argon2id {
  import opened Common

  /** `argon2id.Params`: memory in KiB, passes, lanes, salt and key length in bytes. */
  datatype Params = Params(memory: nat, iterations: nat, parallelism: nat, saltLength: nat, keyLength: nat)

  /** What `CreateHash` gives back: an encoded hash, or the error it reports. */
  datatype Created = Hashed(encoded: string) | CreateFailed(reason: string)

  /** What `ComparePasswordAndHash` gives back: the match flag and an optional error. */
  datatype Comparison = Comparison(matched: bool, err: Option<string>)

  /**
   * The library. `createHash` receives the bytes its random source would
   * supply for the salt, so that hashing is a function of its inputs;
   * `paramsOf` reads back the parameters an encoded hash records.
   */
  datatype Library = Library(
    createHash: (string, Params, seq<Byte>) -> Created,
    comparePasswordAndHash: (string, string) -> Comparison,
    paramsOf: string -> Option<Params>)

  /** A hash the library creates for a password verifies that password, without error. */
  ghost predicate RoundTrip(lib: Library)
  {
    forall password, params, salt ::
      lib.createHash(password, params, salt).Hashed? ==>
        lib.comparePasswordAndHash(password, lib.createHash(password, params, salt).encoded)
          == Comparison(true, None)
  }

  /** An encoded hash records the parameters it was created with. */
  ghost predicate SelfDescribing(lib: Library)
  {
    forall password, params, salt ::
      lib.createHash(password, params, salt).Hashed? ==>
        lib.paramsOf(lib.createHash(password, params, salt).encoded) == Some(params)
  }

  /**
   * A hash created for one password matches no other password: the
   * idealisation of "no collision, with overwhelming probability".
   */
  ghost predicate Discriminating(lib: Library)
  {
    forall guess, password, params, salt ::
      (lib.createHash(password, params, salt).Hashed? &&
       lib.comparePasswordAndHash(guess, lib.createHash(password, params, salt).encoded).matched)
      ==> guess == password
  }
}
