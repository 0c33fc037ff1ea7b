/**
 * What a handler writes back: a status code and a JSON (or empty) body.
 * Headers, serialisation and the writer itself are not modelled.
 */
module Replies {
  import opened Models

  const StatusOK := 200
  const StatusCreated := 201
  const StatusNoContent := 204
  const StatusBadRequest := 400
  const StatusUnauthorized := 401
  const StatusForbidden := 403
  const StatusNotFound := 404
  const StatusInternalServerError := 500

  datatype Body =
    | NoBody
    /** `{"error": msg}` */
    | ErrorJson(error: string)
    | UserJson(user: ResponseUser)
    | ChirpJson(chirp: Chirp)
    | ChirpsJson(chirps: seq<Chirp>)
    /** A nil slice, which encodes as `null`. */
    | NullJson
    /** `{"cleaned_body": text}` */
    | CleanedJson(cleanedBody: string)
    /** The admin metrics page, showing the hit count. */
    | MetricsPage(hits: int)

  /** Status, body, and whether the server logged the reply as a server error. */
  datatype Response = Response(status: int, body: Body, logged: bool)

  /** `respondWithJSON`: the given status and body, never logged. */
  function RespondWithJson(code: int, body: Body): (r: Response)
    ensures r.status == code && r.body == body && !r.logged
  {
    Response(code, body, false)
  }

  /** `respondWithError`: the one-field envelope, logged only for 5xx codes. */
  function RespondWithError(code: int, msg: string): (r: Response)
    ensures r.status == code && r.body == ErrorJson(msg)
    ensures r.logged <==> code >= 500
  {
    Response(code, ErrorJson(msg), code >= 500)
  }

  /** A reply with a status and no body (`w.WriteHeader` alone). */
  function WriteHeader(code: int): (r: Response)
    ensures r.status == code && r.body == NoBody && !r.logged
  {
    Response(code, NoBody, false)
  }
}
