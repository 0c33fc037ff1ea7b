/**
 * The auth package: password hashing with fixed Argon2id parameters,
 * password checking that reports every non-match the same way, and the
 * package-wide dummy credential that login compares against when no stored
 * hash is available, so that a failed lookup costs the same key derivation
 * as a wrong password.
 */
module Auth {
  import opened Common
  import opened Argon2id

  /** Memory used, in kibibytes (the OWASP second Argon2id setting). */
  const Memory: nat := 19 * 1024
  /** Number of passes over the memory. */
  const Iterations: nat := 2
  /** Number of lanes. */
  const Parallelism: nat := 1
  /** Length of the random salt, in bytes. */
  const SaltLength: nat := 16
  /** Length of the derived key, in bytes. */
  const HashLength: nat := 32

  /** The one parameter set every call to `HashPassword` uses. */
  const CurrentParams: Params := Params(Memory, Iterations, Parallelism, SaltLength, HashLength)

  /** Length of the random dummy password, in bytes. */
  const DummyPasswordLength: nat := 32

  datatype Error =
    | ErrMismatchedHashAndPassword
    | LibraryError(reason: string)

  datatype Result<+T> = Ok(value: T) | Err(error: Error)

  /** `HashPassword`: the library's `CreateHash` with the fixed parameters. */
  function HashPassword(lib: Library, password: string, salt: seq<Byte>): (r: Result<string>)
    ensures r.Ok? <==> lib.createHash(password, CurrentParams, salt).Hashed?
  {
    match lib.createHash(password, CurrentParams, salt)
    case Hashed(encoded) => Ok(encoded)
    case CreateFailed(reason) => Err(LibraryError(reason))
  }

  /**
   * `CheckPassword`: `None` (Go's nil) only when the library reports a match
   * without error; every non-match, whatever error the library attached to
   * it (a malformed hash, say), is `ErrMismatchedHashAndPassword`; a match
   * reported with an error returns that error.
   */
  function CheckPassword(lib: Library, password: string, hash: string): (r: Option<Error>)
    ensures r.None? <==> lib.comparePasswordAndHash(password, hash) == Comparison(true, None)
    ensures !lib.comparePasswordAndHash(password, hash).matched ==> r == Some(ErrMismatchedHashAndPassword)
    ensures var c := lib.comparePasswordAndHash(password, hash);
            c.matched && c.err.Some? ==> r == Some(LibraryError(c.err.value))
  {
    var comparison := lib.comparePasswordAndHash(password, hash);
    if comparison.matched then
      match comparison.err
      case None => None
      case Some(reason) => Some(LibraryError(reason))
    else
      Some(ErrMismatchedHashAndPassword)
  }

  /** Every hash `HashPassword` produces records the fixed parameters. */
  lemma HashPasswordParams(lib: Library, password: string, salt: seq<Byte>)
    requires SelfDescribing(lib)
    requires HashPassword(lib, password, salt).Ok?
    ensures lib.paramsOf(HashPassword(lib, password, salt).value) == Some(CurrentParams)
    ensures CurrentParams == Params(19 * 1024, 2, 1, 16, 32)
  {
  }

  /** The password a hash was made from checks against it. */
  lemma HashThenCheck(lib: Library, password: string, salt: seq<Byte>)
    requires RoundTrip(lib)
    requires HashPassword(lib, password, salt).Ok?
    ensures CheckPassword(lib, password, HashPassword(lib, password, salt).value) == None
  {
  }

  /** Under an idealised library, no other password checks against it. */
  lemma HashThenCheckOther(lib: Library, guess: string, password: string, salt: seq<Byte>)
    requires Discriminating(lib)
    requires HashPassword(lib, password, salt).Ok?
    requires guess != password
    ensures CheckPassword(lib, guess, HashPassword(lib, password, salt).value) == Some(ErrMismatchedHashAndPassword)
  {
  }

  /**
   * A malformed hash is no distinct outcome: the library's parse error
   * comes back as the ordinary mismatch.
   */
  lemma MalformedHashIsMismatch(lib: Library, password: string, hash: string, reason: string)
    requires lib.comparePasswordAndHash(password, hash) == Comparison(false, Some(reason))
    ensures CheckPassword(lib, password, hash) == Some(ErrMismatchedHashAndPassword)
  {
  }

  /** Go's `string(b)` on a byte slice, each byte kept as one character. */
  function BytesToString(bytes: seq<Byte>): (s: string)
    ensures |s| == |bytes|
  {
    seq(|bytes|, i requires 0 <= i < |bytes| => (bytes[i] as int) as char)
  }

  /** Different dummy passwords give different password strings. */
  lemma BytesToStringInjective(a: seq<Byte>, b: seq<Byte>)
    requires BytesToString(a) == BytesToString(b)
    ensures a == b
  {
    forall i | 0 <= i < |a|
      ensures a[i] == b[i]
    {
      assert BytesToString(a)[i] == BytesToString(b)[i];
    }
  }

  /**
   * The life of the package state: `Initialize` moves it from
   * `Uninitialised` to `Initialised`, or to `Terminated` when hashing fails
   * and the process exits.
   */
  datatype Phase = Uninitialised | Initialised | Terminated

  /** The package-level variables `DummyPassword` and `DummyHash`. */
  class AuthPackage {
    /** The hashing library the package calls. */
    const lib: Library
    /** `DummyPassword`: a 32-byte buffer, filled in place with random bytes. */
    const dummyPassword: array<Byte>
    /** `DummyHash`: written by `Initialize` and nowhere else. */
    var dummyHash: string
    var phase: Phase
    /** The salt bytes the library drew while hashing the dummy password. */
    ghost var dummySalt: seq<Byte>

    ghost predicate Valid()
      reads this, dummyPassword
    {
      && dummyPassword.Length == DummyPasswordLength
      && (phase == Initialised ==> HashPassword(lib, DummyPasswordText(), dummySalt) == Ok(dummyHash))
    }

    /** Initialised: `DummyHash` is a hash of the current dummy password. */
    ghost predicate Ready()
      reads this, dummyPassword
    {
      Valid() && phase == Initialised
    }

    /** `string(DummyPassword)`. */
    function DummyPasswordText(): (s: string)
      reads dummyPassword
      ensures |s| == dummyPassword.Length
    {
      BytesToString(dummyPassword[..])
    }

    /** Package start-up: a zeroed 32-byte buffer and an empty `DummyHash`. */
    constructor (lib: Library)
      ensures Valid() && phase == Uninitialised
      ensures this.lib == lib && dummyHash == ""
      ensures fresh(dummyPassword) && forall i :: 0 <= i < dummyPassword.Length ==> dummyPassword[i] == 0
    {
      this.lib := lib;
      dummyPassword := new Byte[DummyPasswordLength](_ => 0);
      dummyHash := "";
      phase := Uninitialised;
    }

    /**
     * `Initialize`: fill `DummyPassword` with the bytes the random source
     * supplies, then set `DummyHash` to the hash of `string(DummyPassword)`;
     * if hashing fails, `DummyHash` is left empty and the process exits.
     */
    method Initialize(random: seq<Byte>, salt: seq<Byte>)
      requires Valid() && phase != Terminated
      requires |random| == dummyPassword.Length
      modifies this, dummyPassword
      ensures Valid()
      ensures dummyPassword[..] == random
      ensures var h := HashPassword(lib, BytesToString(random), salt);
              if h.Ok? then phase == Initialised && dummyHash == h.value
              else phase == Terminated && dummyHash == ""
    {
      forall i | 0 <= i < dummyPassword.Length {
        dummyPassword[i] := random[i];
      }
      assert dummyPassword[..] == random;
      var h := HashPassword(lib, DummyPasswordText(), salt);
      if h.Ok? {
        dummyHash := h.value;
        dummySalt := salt;
        phase := Initialised;
      } else {
        dummyHash := "";
        phase := Terminated;
      }
    }
  }

  /** The dummy hash is a valid hash: its own password checks against it. */
  lemma DummyHashVerifies(auth: AuthPackage)
    requires auth.Ready() && RoundTrip(auth.lib)
    ensures CheckPassword(auth.lib, auth.DummyPasswordText(), auth.dummyHash) == None
  {
    HashThenCheck(auth.lib, auth.DummyPasswordText(), auth.dummySalt);
  }

  /** The dummy hash costs what every stored hash costs: the fixed parameters. */
  lemma DummyHashParams(auth: AuthPackage)
    requires auth.Ready() && SelfDescribing(auth.lib)
    ensures auth.lib.paramsOf(auth.dummyHash) == Some(CurrentParams)
  {
    HashPasswordParams(auth.lib, auth.DummyPasswordText(), auth.dummySalt);
  }
}
