/**
 * The chirp handlers: `POST /api/validate_chirp` (the earlier version, which
 * only answers with the censored text), `POST /api/chirps`,
 * `GET /api/chirps/{chirpID}` and `GET /api/chirps`. A chirp's length is
 * counted in runes on the text as sent, before any censoring.
 */
module Chirps {
  import opened Common
  import opened Models
  import opened Store
  import opened Replies
  import opened Effects
  import opened Censor

  /** The longest chirp accepted, in runes. */
  const MaxChirpLength: nat := 140

  const ParseFailure := "Failed to parse Chirp"
  const EmptyChirp := "Chirp cannot be empty"
  const LongChirp := "Chirp is too long"

  /** The length rule shared by both versions: `None` when the chirp may be posted. */
  function LengthError(body: string): (err: Option<string>)
    ensures err == None <==> 1 <= |body| <= MaxChirpLength
    ensures |body| == 0 ==> err == Some(EmptyChirp)
    ensures |body| > MaxChirpLength ==> err == Some(LongChirp)
  {
    if |body| <= 0 then Some(EmptyChirp)
    else if |body| > MaxChirpLength then Some(LongChirp)
    else None
  }

  /** `validate_chirp`: `request` is the decoded body text, `None` when decoding failed. */
  function ValidateChirp(request: Option<string>): (r: Response)
    ensures request.None? ==> r == RespondWithError(StatusInternalServerError, ParseFailure)
    ensures request.Some? && LengthError(request.value).Some? ==>
              r == RespondWithError(StatusBadRequest, LengthError(request.value).value)
    ensures r.status == StatusOK <==> request.Some? && 1 <= |request.value| <= MaxChirpLength
    ensures r.status == StatusOK ==> r == RespondWithJson(StatusOK, CleanedJson(Censored(request.value)))
  {
    match request
    case None => RespondWithError(StatusInternalServerError, ParseFailure)
    case Some(body) =>
      match LengthError(body)
      case Some(msg) => RespondWithError(StatusBadRequest, msg)
      case None => RespondWithJson(StatusOK, CleanedJson(Censored(body)))
  }

  /**
   * The length is judged on the text as sent: 140 runes pass, 141 do not,
   * even when censoring would shorten the text below the limit.
   */
  lemma ValidateChirpBoundary(body: string)
    ensures |body| == MaxChirpLength ==> ValidateChirp(Some(body)).status == StatusOK
    ensures |body| == MaxChirpLength + 1 ==>
              ValidateChirp(Some(body)) == RespondWithError(StatusBadRequest, LongChirp)
    ensures ValidateChirp(Some(body)).status == StatusOK ==>
              |ValidateChirp(Some(body)).body.cleanedBody| <= MaxChirpLength
  {
    CensoredNoLonger(body);
  }

  /** The decoded body of a chirp request. */
  datatype ChirpParams = ChirpParams(body: string, userId: Uuid)

  const CreateFailure := "Failed to create chirp"

  /**
   * `createChirp`: checks the length, censors, and inserts. `meta` is what
   * the database generates for the new row, `fault` a failure of the insert.
   */
  function CreateChirp(users: Users, request: Option<ChirpParams>, meta: RowMeta, fault: bool): (h: Handled)
    ensures request.None? ==>
              h == Handled(RespondWithError(StatusInternalServerError, ParseFailure), [])
    ensures request.Some? && LengthError(request.value.body).Some? ==>
              h == Handled(RespondWithError(StatusBadRequest, LengthError(request.value.body).value), [])
    ensures request.Some? && LengthError(request.value.body).None? ==>
              h.effects == [InsertChirp(Censored(request.value.body), request.value.userId)]
    ensures h.response.status == StatusCreated <==>
              && request.Some? && LengthError(request.value.body).None?
              && !fault && request.value.userId in UserIds(users)
    ensures h.response.status == StatusCreated ==>
              h.response == RespondWithJson(StatusCreated,
                ChirpJson(Chirp(meta.id, meta.createdAt, meta.updatedAt,
                                Censored(request.value.body), request.value.userId)))
    ensures && request.Some? && LengthError(request.value.body).None?
            && (fault || request.value.userId !in UserIds(users)) ==>
              h.response == RespondWithError(StatusInternalServerError, CreateFailure)
  {
    match request
    case None => Handled(RespondWithError(StatusInternalServerError, ParseFailure), [])
    case Some(p) =>
      match LengthError(p.body)
      case Some(msg) => Handled(RespondWithError(StatusBadRequest, msg), [])
      case None =>
        var body := Censored(p.body);
        var effects := [InsertChirp(body, p.userId)];
        match Store.CreateChirp(users, body, p.userId, meta, fault)
        case InsertError => Handled(RespondWithError(StatusInternalServerError, CreateFailure), effects)
        case Inserted(row) => Handled(RespondWithJson(StatusCreated, ChirpJson(ChirpFrom(row))), effects)
  }

  /** What is stored is censored: storing it and censoring again changes nothing. */
  lemma CreateChirpStoresCensored(users: Users, request: Option<ChirpParams>, meta: RowMeta, fault: bool)
    ensures forall e :: e in CreateChirp(users, request, meta, fault).effects && e.InsertChirp? ==>
              && request.Some?
              && e.body == Censored(request.value.body)
              && Censored(e.body) == e.body
              && |e.body| <= |request.value.body|
  {
    if request.Some? {
      CensorIdempotent(request.value.body);
      CensoredNoLonger(request.value.body);
    }
  }

  /** The library calls `uuid.Validate` and `uuid.Parse`, which are not modelled. */
  datatype UuidLib = UuidLib(validate: string -> bool, parse: string -> Option<Uuid>)

  const InvalidId := "Invalid chirp ID"
  const IdParseFailure := "Failed to parse chirp ID"
  const LookupFailure := "Failed to retrieve chirp by ID"

  function NotFoundMessage(id: Uuid): string
  {
    "No chirp exists with ID " + id.text
  }

  /**
   * `getChirp`: an id that does not validate is a 400, a missing row a 404,
   * any other failure a 500, and the database is only queried for an id
   * that validated and parsed.
   */
  function GetChirp(uuid: UuidLib, chirps: Chirps, idString: string, fault: bool): (h: Handled)
    ensures !uuid.validate(idString) ==> h == Handled(RespondWithError(StatusBadRequest, InvalidId), [])
    ensures uuid.validate(idString) && uuid.parse(idString).None? ==>
              h == Handled(RespondWithError(StatusInternalServerError, IdParseFailure), [])
    ensures uuid.validate(idString) && uuid.parse(idString).Some? ==>
              var id := uuid.parse(idString).value;
              && h.effects == [LookupChirp(id)]
              && (fault ==> h.response == RespondWithError(StatusInternalServerError, LookupFailure))
              && (!fault && id !in chirps ==>
                    h.response == RespondWithError(StatusNotFound, NotFoundMessage(id)))
              && (!fault && id in chirps ==>
                    h.response == RespondWithJson(StatusOK, ChirpJson(ChirpFrom(chirps[id]))))
  {
    if !uuid.validate(idString) then
      Handled(RespondWithError(StatusBadRequest, InvalidId), [])
    else
      match uuid.parse(idString)
      case None => Handled(RespondWithError(StatusInternalServerError, IdParseFailure), [])
      case Some(id) =>
        var effects := [LookupChirp(id)];
        match GetChirpById(chirps, id, fault)
        case Found(row) => Handled(RespondWithJson(StatusOK, ChirpJson(ChirpFrom(row))), effects)
        case NoRows => Handled(RespondWithError(StatusNotFound, NotFoundMessage(id)), effects)
        case QueryError => Handled(RespondWithError(StatusInternalServerError, LookupFailure), effects)
  }

  /** Every outcome of `getChirp` is one of four statuses, each with one cause. */
  lemma GetChirpStatuses(uuid: UuidLib, chirps: Chirps, idString: string, fault: bool)
    ensures var s := GetChirp(uuid, chirps, idString, fault).response.status;
            && (s == StatusBadRequest <==> !uuid.validate(idString))
            && (s == StatusNotFound <==>
                  uuid.validate(idString) && uuid.parse(idString).Some? && !fault
                  && uuid.parse(idString).value !in chirps)
            && (s == StatusOK <==>
                  uuid.validate(idString) && uuid.parse(idString).Some? && !fault
                  && uuid.parse(idString).value in chirps)
            && (s == StatusInternalServerError <==>
                  uuid.validate(idString) && (uuid.parse(idString).None? || fault))
  {
  }

  const ListFailure := "Failed to retrieve all chirps"

  function ChirpsFrom(rows: seq<DbChirp>): (chirps: seq<Chirp>)
  {
    seq(|rows|, i requires 0 <= i < |rows| => ChirpFrom(rows[i]))
  }

  /**
   * `getAllChirps`: `rows` is the query's result, `None` when it failed.
   * The list starts as a nil slice and is appended to row by row, so an
   * empty table is answered with `null`.
   */
  method GetAllChirps(rows: Option<seq<DbChirp>>) returns (r: Response)
    ensures rows.None? ==> r == RespondWithError(StatusInternalServerError, ListFailure)
    ensures rows.Some? && |rows.value| == 0 ==> r == RespondWithJson(StatusOK, NullJson)
    ensures rows.Some? && |rows.value| > 0 ==>
              && r.status == StatusOK && !r.logged && r.body.ChirpsJson?
              && |r.body.chirps| == |rows.value|
              && forall i :: 0 <= i < |rows.value| ==> RowFrom(r.body.chirps[i]) == rows.value[i]
  {
    if rows.None? {
      return RespondWithError(StatusInternalServerError, ListFailure);
    }
    var dbChirps := rows.value;
    var chirps: seq<Chirp> := [];
    var isNil := true;
    for i := 0 to |dbChirps|
      invariant chirps == ChirpsFrom(dbChirps[..i])
      invariant isNil <==> i == 0
    {
      chirps := chirps + [ChirpFrom(dbChirps[i])];
      isNil := false;
    }
    assert dbChirps[..|dbChirps|] == dbChirps;
    if isNil {
      r := RespondWithJson(StatusOK, NullJson);
    } else {
      r := RespondWithJson(StatusOK, ChirpsJson(chirps));
    }
  }
}
