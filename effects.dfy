/**
 * The calls a handler makes on the way to its reply, in order: database
 * queries and the auth package's hashing and checking. Recording them lets
 * a contract say how many key derivations a request costs and what was
 * written to the store.
 */
module Effects {
  import opened Models
  import opened Replies

  datatype Effect =
    | LookupUser(email: string)
    | InsertUser(email: string, hashedPassword: string)
    | LookupChirp(id: Uuid)
    | InsertChirp(body: string, userId: Uuid)
    | HashCall(password: string)
    | CheckCall(password: string, hash: string)

  /** A handler's reply and the calls it made. */
  datatype Handled = Handled(response: Response, effects: seq<Effect>)

  /** The number of password checks, each one full key derivation. */
  function CheckCount(effects: seq<Effect>): (n: nat)
    ensures n <= |effects|
    ensures n == 0 <==> forall i :: 0 <= i < |effects| ==> !effects[i].CheckCall?
  {
    if |effects| == 0 then 0
    else (if effects[0].CheckCall? then 1 else 0) + CheckCount(effects[1..])
  }
}
