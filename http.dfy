/** The HTTP side of the controllers: the status codes they answer with and
    a response carrying a body and a status. */
module Http {

  const HttpOk: int := 200
  const HttpCreated: int := 201
  const HttpNoContent: int := 204
  const Unauthorized: int := 401
  const Forbidden: int := 403
  const NotFound: int := 404
  const Conflict: int := 409
  const InternalServerError: int := 500

  /** A response entity: its body and its status. */
  datatype Response<T> = Response(body: T, status: int)

  /** The status of a list response: no content for an empty list, OK
      otherwise. */
  function ListStatus<T>(items: seq<T>): (s: int)
    ensures s == HttpNoContent <==> items == []
    ensures s == HttpOk <==> items != []
  {
    if items == [] then HttpNoContent else HttpOk
  }
}
