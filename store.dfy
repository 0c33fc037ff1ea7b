/**
 * The database as the handlers see it: the users table keyed by email
 * (the schema makes emails unique), the chirps table keyed by id, and the
 * generated queries. A query can fail for reasons outside the model (the
 * connection, say); that is an input flag `fault`.
 */
module Store {
  import opened Models

  type Users = map<string, DbUser>
  type Chirps = map<Uuid, DbChirp>

  /** Every user row is filed under its own email. */
  ghost predicate WellKeyed(users: Users)
  {
    forall email :: email in users ==> users[email].email == email
  }

  /** A single-row query: the row, `sql.ErrNoRows`, or any other error. */
  datatype Lookup<+T> = Found(row: T) | NoRows | QueryError

  /** An insert: the row the database returns, or an error. */
  datatype Insert<+T> = Inserted(row: T) | InsertError

  /** The values the database generates for a new row. */
  datatype RowMeta = RowMeta(id: Uuid, createdAt: Time, updatedAt: Time)

  function Find<K, V>(table: map<K, V>, key: K, fault: bool): (r: Lookup<V>)
    ensures r.QueryError? <==> fault
    ensures r.NoRows? <==> !fault && key !in table
    ensures r.Found? ==> key in table && r.row == table[key]
  {
    if fault then QueryError else if key in table then Found(table[key]) else NoRows
  }

  /** `GetUserByEmail`. */
  function GetUserByEmail(users: Users, email: string, fault: bool): Lookup<DbUser>
  {
    Find(users, email, fault)
  }

  /** `GetChirpByID`. */
  function GetChirpById(chirps: Chirps, id: Uuid, fault: bool): Lookup<DbChirp>
  {
    Find(chirps, id, fault)
  }

  /** `CreateUser`: a duplicate email violates the unique constraint. */
  function CreateUser(users: Users, email: string, hashedPassword: string, meta: RowMeta, fault: bool)
    : (r: Insert<DbUser>)
    ensures r.Inserted? <==> !fault && email !in users
    ensures r.Inserted? ==> r.row.email == email && r.row.hashedPassword == hashedPassword
  {
    if fault || email in users then InsertError
    else Inserted(DbUser(meta.id, meta.createdAt, meta.updatedAt, email, hashedPassword))
  }

  /** The ids of the registered users. */
  function UserIds(users: Users): set<Uuid>
  {
    set email | email in users :: users[email].id
  }

  /** `CreateChirp`: an unknown `user_id` violates the foreign key. */
  function CreateChirp(users: Users, body: string, userId: Uuid, meta: RowMeta, fault: bool)
    : (r: Insert<DbChirp>)
    ensures r.Inserted? <==> !fault && userId in UserIds(users)
    ensures r.Inserted? ==> r.row.body == body && r.row.userId == userId
  {
    if fault || userId !in UserIds(users) then InsertError
    else Inserted(DbChirp(meta.id, meta.createdAt, meta.updatedAt, body, userId))
  }
}
