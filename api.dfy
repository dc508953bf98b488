/** The `/generate-password` endpoint, `create_password`: run the generator on
    an already-validated request and wrap the outcome in a response envelope. */
module Api {
  import opened Wrappers
  import opened Charsets
  import opened Generator

  /** A request after validation: a length and the two inclusion flags */
  datatype PasswordRequest = PasswordRequest(length: int, includeNumbers: bool, includeSpecialChars: bool)

  /** `{"password": ..., "success": true}` or `{"error": ..., "success": false}` */
  datatype PasswordResponse = Generated(password: string) | Failed(error: string) {
    /** The `success` field of the envelope */
    predicate Success() { Generated? }
  }

  /** The try/except of the handler: a value becomes the success envelope,
      a raised exception becomes the error envelope carrying its message. */
  function Envelope(outcome: Result<string>): (response: PasswordResponse)
    ensures response.Success() <==> outcome.Ok?
    ensures outcome.Ok? ==> response.password == outcome.value
    ensures outcome.Err? ==> response.error == outcome.error
  {
    match outcome
    case Ok(password) => Generated(password)
    case Err(message) => Failed(message)
  }

  /** `create_password(request)`, with the draws the generator consumes */
  function CreatePassword(request: PasswordRequest, draws: seq<nat>): (response: PasswordResponse)
    requires request.length <= |draws|
    ensures response.Success()
    ensures |response.password| == RangeLength(request.length)
    ensures forall i :: 0 <= i < |response.password| ==>
              response.password[i] in Pool(request.includeNumbers, request.includeSpecialChars)
  {
    Envelope(GeneratePassword(request.length, request.includeNumbers, request.includeSpecialChars, draws))
  }

  /** The error envelope is reached only through a raising generation, and a
      generation only raises on an empty pool with something to draw. */
  lemma ErrorEnvelopeNeedsEmptyPool(pool: string, draws: seq<nat>)
    ensures Envelope(Draw(pool, draws)).Failed? <==> |pool| == 0 && |draws| > 0
    ensures Envelope(Draw(pool, draws)).Failed? ==> Envelope(Draw(pool, draws)).error == EmptyChoiceMessage
  {
  }

  /** Every request is answered with the success envelope carrying the
      password the generator produced. */
  lemma AlwaysSucceeds(request: PasswordRequest, draws: seq<nat>)
    requires request.length <= |draws|
    ensures CreatePassword(request, draws) ==
            Generated(GeneratePassword(request.length, request.includeNumbers, request.includeSpecialChars, draws).value)
  {
  }

  /** A zero or negative length is answered with the empty password, successfully */
  lemma NonPositiveLengthGivesEmptyPassword(request: PasswordRequest, draws: seq<nat>)
    requires request.length <= 0
    ensures CreatePassword(request, draws) == Generated("")
  {
  }

  /** A request for 12 characters with digits and no special characters gets
      12 characters, each a letter or a digit. */
  lemma TwelveAlphanumeric(draws: seq<nat>)
    requires 12 <= |draws|
    ensures var response := CreatePassword(PasswordRequest(12, true, false), draws);
      response.Success() && |response.password| == 12 &&
      forall i :: 0 <= i < 12 ==> IsAsciiLetter(response.password[i]) || IsAsciiDigit(response.password[i])
  {
    GeneratedCharacterClasses(12, true, false, draws);
  }
}
