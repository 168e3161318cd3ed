/** `handleCors`: the cross-origin headers for a request, and the answer to a preflight. */
module Cors {
  import opened Wrappers
  import opened Http

  const AllowOrigin: string := "Access-Control-Allow-Origin"
  const AllowMethods: string := "Access-Control-Allow-Methods"
  const AllowHeaders: string := "Access-Control-Allow-Headers"
  const AllowCredentials: string := "Access-Control-Allow-Credentials"

  /** A preflight is answered here; any other request gets the header map to attach. */
  datatype CorsResult = Preflight(response: Response) | PassHeaders(headers: map<string, string>)

  /** `origin` is the request's `origin` header, `None` when it is missing. */
  function CorsHeaders(origin: Option<string>): (h: map<string, string>)
    ensures h.Keys == {AllowOrigin, AllowMethods, AllowHeaders, AllowCredentials}
    ensures origin.Some? && origin.value != "" ==> h[AllowOrigin] == origin.value
    ensures origin.None? || origin.value == "" ==> h[AllowOrigin] == "*"
    ensures h[AllowMethods] == "GET,POST,OPTIONS" && h[AllowHeaders] == "Content-Type" && h[AllowCredentials] == "true"
  {
    var allowed := match origin
                   case Some(o) => if o != "" then o else "*"
                   case None => "*";
    map[AllowOrigin := allowed, AllowMethods := "GET,POST,OPTIONS",
        AllowHeaders := "Content-Type", AllowCredentials := "true"]
  }

  /** `verb` is the request method. */
  function HandleCors(origin: Option<string>, verb: string): (r: CorsResult)
    ensures verb == "OPTIONS" <==> r.Preflight?
    ensures r.Preflight? ==> r.response == Response(204, CorsHeaders(origin), NoBody)
    ensures r.PassHeaders? ==> r.headers == CorsHeaders(origin)
  {
    if verb == "OPTIONS" then Preflight(Response(204, CorsHeaders(origin), NoBody))
    else PassHeaders(CorsHeaders(origin))
  }
}
