/** What an HTTP GET made through `requests` can come back with. Transport,
    redirects and timeouts are not modelled: each exchange is an input. */
module Http {
  import opened Wrappers
  import opened Text

  /** A response the server sent: status code, reason phrase and body text. */
  datatype Reply = Reply(code: int, reason: string, body: string)

  /** Either the server answered, or `requests` raised a `RequestException`
      whose text is `message` and which may carry a response. */
  datatype Exchange = Answered(reply: Reply) | Raised(message: string, attached: Option<Reply>)

  /** `raise_for_status()` raises `HTTPError` exactly for 4xx and 5xx codes. */
  predicate RaisesForStatus(code: int) {
    400 <= code < 600
  }

  /** `bool(response)` is `response.ok`: false exactly when
      `raise_for_status()` would raise. */
  predicate Truthy(r: Reply) {
    !RaisesForStatus(r.code)
  }

  /** The text of the `HTTPError` that `raise_for_status()` raises. */
  function HttpErrorMessage(r: Reply, url: string): string
    requires RaisesForStatus(r.code)
  {
    var kind := if r.code < 500 then " Client Error: " else " Server Error: ";
    IntToString(r.code) + kind + r.reason + " for url: " + url
  }
}
