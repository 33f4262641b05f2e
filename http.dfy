/**
 * The transport-facing part of the sync library: the error taxonomy, the raw
 * HTTP response, and the one chokepoint that classifies a response as a
 * decoded value or an error (`deserialize_successful_response`).
 */
module Http {
  import opened Wrappers

  /** Rust's `u16`, the type of an HTTP status code once converted. */
  newtype u16 = x: int | 0 <= x < 0x1_0000

  /** Rust's `i32`. */
  newtype i32 = x: int | -0x8000_0000 <= x < 0x8000_0000

  /**
   * The library's error type. The diagnostics wrapped by the URL, HTTP and
   * JSON variants come from foreign libraries and are not modelled; the name
   * `DeserizalizationError` keeps the source's spelling.
   */
  datatype AppError =
    | WrongUrl
    | HttpError
    | WrongToken
    | WrongResponseCode(status: u16, body: string)
    | DeserizalizationError

  /**
   * A response as the HTTP client hands it over: a status code, and the body
   * text, or `None` when reading the body failed.
   */
  datatype HttpResponse = HttpResponse(status: u16, text: Option<string>)

  /**
   * What issuing one request produced: a response, or the error raised while
   * joining the URL (`WrongUrl`) or sending the request (`HttpError`).
   */
  type Exchange = Result<HttpResponse, AppError>

  /** `StatusCode::is_success`: the 2xx range. */
  predicate IsSuccess(status: u16) {
    200 <= status <= 299
  }

  /**
   * `deserialize_successful_response`: read the body, then either parse it
   * (success status) or report the status with the body kept verbatim.
   * JSON decoding is the parameter `parse`.
   */
  function Classify<T>(resp: HttpResponse, parse: string -> Option<T>): (r: Result<T, AppError>)
    ensures resp.text.None? ==> r == Failure(HttpError)
    ensures resp.text.Some? && !IsSuccess(resp.status) ==>
              r == Failure(WrongResponseCode(resp.status, resp.text.value))
    ensures resp.text.Some? && IsSuccess(resp.status) ==>
              (r.Success? <==> parse(resp.text.value).Some?) &&
              (r.Success? ==> r.value == parse(resp.text.value).value) &&
              (r.Failure? ==> r.error == DeserizalizationError)
  {
    match resp.text
    case None => Failure(HttpError)
    case Some(text) =>
      if IsSuccess(resp.status) then
        match parse(text)
        case Some(v) => Success(v)
        case None => Failure(DeserizalizationError)
      else
        Failure(WrongResponseCode(resp.status, text))
  }

  /**
   * One request and the decoding of its answer: a transport error is passed
   * on unchanged, a response goes through `Classify`.
   */
  function Fetch<T>(exchange: Exchange, parse: string -> Option<T>): (r: Result<T, AppError>)
    ensures exchange.Failure? ==> r == Failure(exchange.error)
    ensures exchange.Success? ==> r == Classify(exchange.value, parse)
  {
    match exchange
    case Failure(e) => Failure(e)
    case Success(resp) => Classify(resp, parse)
  }
}
