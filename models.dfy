/**
 * The record shapes the handlers read from the database and write to
 * clients. `ResponseUser` has no password-hash field, so a user converted
 * with `ResponseFrom` cannot carry one.
 */
module Models {

  /** A UUID, by its canonical text (what `uuid.UUID.String` prints). */
  datatype Uuid = Uuid(text: string)

  /** A timestamp. */
  type Time = int

  /** A row of the users table. */
  datatype DbUser = DbUser(id: Uuid, createdAt: Time, updatedAt: Time, email: string, hashedPassword: string)

  /** A row of the chirps table. */
  datatype DbChirp = DbChirp(id: Uuid, createdAt: Time, updatedAt: Time, body: string, userId: Uuid)

  /** The user as sent to clients. */
  datatype ResponseUser = ResponseUser(id: Uuid, createdAt: Time, updatedAt: Time, email: string)

  /** The chirp as sent to clients: the same five fields as the row. */
  datatype Chirp = Chirp(id: Uuid, createdAt: Time, updatedAt: Time, body: string, userId: Uuid)

  /** `ResponseFrom`: the public fields of a user row. */
  function ResponseFrom(user: DbUser): (r: ResponseUser)
    ensures r.id == user.id && r.createdAt == user.createdAt
    ensures r.updatedAt == user.updatedAt && r.email == user.email
  {
    ResponseUser(user.id, user.createdAt, user.updatedAt, user.email)
  }

  /** The response depends on nothing but the four public fields. */
  lemma ResponseFromIgnoresHash(a: DbUser, b: DbUser)
    ensures ResponseFrom(a) == ResponseFrom(b) <==>
              a.id == b.id && a.createdAt == b.createdAt && a.updatedAt == b.updatedAt && a.email == b.email
  {
  }

  /** Go's conversion `Chirp(dbChirp)`. */
  function ChirpFrom(row: DbChirp): (c: Chirp)
    ensures c.id == row.id && c.createdAt == row.createdAt && c.updatedAt == row.updatedAt
    ensures c.body == row.body && c.userId == row.userId
  {
    Chirp(row.id, row.createdAt, row.updatedAt, row.body, row.userId)
  }

  /** The inverse of `ChirpFrom`, used to state that the conversion loses nothing. */
  function RowFrom(chirp: Chirp): DbChirp
  {
    DbChirp(chirp.id, chirp.createdAt, chirp.updatedAt, chirp.body, chirp.userId)
  }

  /** Converting a chirp loses nothing: the two conversions are inverse. */
  lemma ChirpConversionRoundTrip(row: DbChirp, chirp: Chirp)
    ensures RowFrom(ChirpFrom(row)) == row
    ensures ChirpFrom(RowFrom(chirp)) == chirp
    ensures ChirpFrom(row).body == row.body && ChirpFrom(row).userId == row.userId
  {
  }
}
