/** The HTTP-style value both serverless handlers return to the API front end. */
module Http {

  /** A Lambda proxy response: status code, header map and a body whose type
      depends on the handler (a JSON text in JavaScript, a dictionary in Python). */
  datatype Response<B> = Response(statusCode: int, headers: map<string, string>, body: B)

  /** The two wildcard cross-origin headers, and nothing else. */
  const CorsHeaders: map<string, string> :=
    map["Access-Control-Allow-Origin" := "*", "Access-Control-Allow-Headers" := "*"]

  /** Status 200 with exactly the wildcard cross-origin headers. */
  predicate IsCorsOk<B>(r: Response<B>)
  {
    r.statusCode == 200 && r.headers == CorsHeaders
  }
}
