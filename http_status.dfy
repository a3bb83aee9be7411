/** The success class of HTTP status codes (2xx, section 15.3 of RFC 9110). */
module HttpStatus {

  /** `HttpResponseMessage.IsSuccessStatusCode`: the status lies in 200..299. */
  function IsSuccess(status: int): (b: bool)
    ensures b <==> status / 100 == 2  // the class is the first of the three digits
  {
    200 <= status <= 299
  }
}
