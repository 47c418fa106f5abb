/**
 * What both copies of the outbound API manager share: the parameter bag a
 * caller hands over and the answer of the HTTP client.
 */
module ApiCall {
  import opened Wrappers

  /** The caller's parameter bag, each value already rendered as text. */
  type Params = map<string, string>

  /**
   * The text a StringBuilder appends for `params.get(key)`: the value, or the
   * four letters "null" when the key is absent.
   */
  function ParamText(params: Params, key: string): string {
    if key in params then params[key] else "null"
  }

  /**
   * What the HTTP client does with one URL: it throws (bad URI, network error,
   * non-2xx status, undecodable body), or it answers with a body that may be null.
   */
  datatype CallOutcome<B> = Threw | Responded(body: Option<B>)

  /**
   * The try/catch around the call: a thrown exception becomes empty, an answer
   * becomes Optional.ofNullable of its body.
   */
  function CatchToOptional<B>(outcome: CallOutcome<B>): (result: Option<B>)
    ensures result.Some? <==> outcome.Responded? && outcome.body.Some?
    ensures result.Some? ==> outcome == Responded(result)
  {
    match outcome
    case Threw => None
    case Responded(body) => body
  }
}
