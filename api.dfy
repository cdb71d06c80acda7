/** The client-side logic of the API helpers: the validation of a doctor id
    before it is requested, the error text a failed doctor creation raises,
    the query of a doctor's appointments, the Authorization header added to
    every request and the fields kept from the doctor listing. The HTTP
    requests themselves are outside the model; their responses are
    parameters. */
module Api {
  import opened JsText

  /** A computed value or the text of the error thrown instead. */
  datatype Result<T> = Ok(value: T) | Err(message: string)

  // ---------------------------------------------------------------------
  // getDoctorById

  /** A doctor id as the pages pass it: a route parameter text or a number. */
  datatype DoctorId = IdText(text: string) | IdNumber(n: int)

  /** `!id`: the empty text and the number 0 are falsy. */
  predicate Falsy(id: DoctorId)
  {
    id == IdText("") || id == IdNumber(0)
  }

  /** The id `getDoctorById` requests: a text is read with base-10
      `parseInt`, a number is used as it is. */
  function ValidateDoctorId(id: DoctorId): (r: Result<int>)
    ensures r == Err("Doctor ID is required") <==> Falsy(id)
    ensures r == Err("Invalid doctor ID") <==> id.IdText? && id.text != "" && ParseInt(id.text).None?
    ensures r.Ok? <==> !Falsy(id) && (id.IdText? ==> ParseInt(id.text).Some?)
    ensures id.IdNumber? && id.n != 0 ==> r == Ok(id.n)
    ensures id.IdText? && r.Ok? ==> ParseInt(id.text) == Some(r.value)
  {
    if Falsy(id) then Err("Doctor ID is required")
    else match id
      case IdNumber(n) => Ok(n)
      case IdText(text) =>
        var parsed := ParseInt(text);
        if parsed.None? then Err("Invalid doctor ID") else Ok(parsed.value)
  }

  /** Every integer written out as a route parameter is requested as
      itself, including 0, whose text "0" is not falsy although the number
      0 is. */
  lemma ValidateWrittenId(n: int)
    ensures ValidateDoctorId(IdText(IntToString(n))) == Ok(n)
  {
    ParseIntToString(n);
    assert IntToString(n) != "" by { assert ParseInt("") == None; }
  }

  /** A text is read up to its first non-digit: "12abc" requests doctor 12. */
  lemma ValidateReadsDigitPrefix(ds: string, rest: string)
    requires ds != [] && forall i :: 0 <= i < |ds| ==> IsDigit(ds[i])
    requires rest == [] || !IsDigit(rest[0])
    ensures ValidateDoctorId(IdText(ds + rest)) == Ok(DigitsValue(ds) as int)
  {
    ParseDigitPrefix(ds, rest);
  }

  // ---------------------------------------------------------------------
  // createDoctor

  /** The part of a failed request `createDoctor` looks at: the response's
      status and its body's `error` field, if any. A request that got no
      response is `None`. */
  datatype ErrorResponse = ErrorResponse(status: int, error: Option<string>)

  /** The message of the error `createDoctor` throws: the server's error
      text if it is non-empty, else a fixed text for 401, for 400, or for
      anything else. */
  function CreateDoctorError(response: Option<ErrorResponse>): (message: string)
    ensures message != ""
    ensures response.Some? && response.value.error.Some? && response.value.error.value != "" ==>
      message == response.value.error.value
    ensures (response.None? || response.value.error.None? || response.value.error.value == "") ==>
      message == (if response.Some? && response.value.status == 401 then "Unauthorized. Please log in as an admin."
                  else if response.Some? && response.value.status == 400 then "Invalid data provided. Please check all fields."
                  else "Failed to create doctor. Please try again.")
  {
    if response.Some? && response.value.error.Some? && response.value.error.value != "" then response.value.error.value
    else if response.Some? && response.value.status == 401 then "Unauthorized. Please log in as an admin."
    else if response.Some? && response.value.status == 400 then "Invalid data provided. Please check all fields."
    else "Failed to create doctor. Please try again."
  }

  /** The status only decides the message when the server sent no error
      text; the server's text wins whatever the status. */
  lemma CreateDoctorErrorServerFirst(status1: int, status2: int, text: string)
    requires text != ""
    ensures CreateDoctorError(Some(ErrorResponse(status1, Some(text))))
      == CreateDoctorError(Some(ErrorResponse(status2, Some(text))))
  {
  }

  // ---------------------------------------------------------------------
  // getDoctorAppointments

  /** `status ? { status } : {}`. */
  function AppointmentParams(status: Option<string>): (params: map<string, string>)
    ensures params.Keys <= {"status"}
    ensures "status" in params <==> status.Some? && status.value != ""
    ensures "status" in params ==> params["status"] == status.value
  {
    if status.Some? && status.value != "" then map["status" := status.value] else map[]
  }

  // ---------------------------------------------------------------------
  // Request interceptor

  /** The header prefix of a bearer token. */
  const BearerPrefix := "Bearer "

  /** The request interceptor: with a stored token, Authorization becomes
      "Bearer " followed by it; without one the headers are left alone. */
  function AddAuthHeader(headers: map<string, string>, token: Option<string>): (h: map<string, string>)
    ensures token.Some? && token.value != "" ==> h.Keys == headers.Keys + {"Authorization"}
    ensures token.None? || token.value == "" ==> h == headers
    ensures forall k :: k in headers && k != "Authorization" ==> k in h && h[k] == headers[k]
  {
    if token.Some? && token.value != "" then headers["Authorization" := BearerPrefix + token.value]
    else headers
  }

  /** The token can be read back from the header it produced. */
  lemma AuthHeaderCarriesToken(headers: map<string, string>, token: string)
    requires token != ""
    ensures var h := AddAuthHeader(headers, Some(token));
      && "Authorization" in h
      && |h["Authorization"]| == |BearerPrefix| + |token|
      && h["Authorization"][..|BearerPrefix|] == BearerPrefix
      && h["Authorization"][|BearerPrefix|..] == token
  {
  }

  // ---------------------------------------------------------------------
  // getAllDoctors

  /** The fields `getAllDoctors` keeps from the response body. */
  const ListingFields: set<string> := {"doctors", "total", "totalPages", "currentPage", "specialties"}

  /** The listing result: each kept field as the body has it (`None` for
      `undefined`), and no other field. */
  function ProjectListing<V>(body: map<string, V>): (r: map<string, Option<V>>)
    ensures r.Keys == ListingFields
    ensures forall k :: k in ListingFields && k in body ==> r[k] == Some(body[k])
    ensures forall k :: k in ListingFields && k !in body ==> r[k] == None
  {
    map k | k in ListingFields :: if k in body then Some(body[k]) else None
  }

  /** Fields outside the kept five do not change the result. */
  lemma ProjectListingIgnoresExtras<V>(body: map<string, V>, extra: string, v: V)
    requires extra !in ListingFields
    ensures ProjectListing(body[extra := v]) == ProjectListing(body)
  {
    var a, b := ProjectListing(body[extra := v]), ProjectListing(body);
    forall k | k in a ensures a[k] == b[k] {
      assert k != extra;
    }
  }
}
