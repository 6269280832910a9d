/**
 * The request/response surface shared by every handler: loosely typed
 * request-body fields, the messages a reply can carry, and the HTTP outcome.
 */
module Http {

  /**
   * A field read from a JSON request body. `Undefined` is an absent key;
   * `Null` an explicit null. Handlers tell `!== undefined` apart from the
   * truthiness test `||`, so all three cases are kept.
   */
  datatype Input<+T> = Undefined | Null | Given(value: T)

  /** JavaScript truthiness of a string field: given and non-empty. */
  predicate TextTruthy(x: Input<string>) {
    x.Given? && x.value != ""
  }

  /** `x || fallback` for a string field. */
  function OrText(x: Input<string>, fallback: string): string {
    if TextTruthy(x) then x.value else fallback
  }

  /** `x || fallback` for a numeric field: 0 is falsy. */
  function OrReal(x: Input<real>, fallback: real): real {
    if x.Given? && x.value != 0.0 then x.value else fallback
  }

  /** `x || fallback` for a date field carried as a millisecond timestamp: 0 is falsy. */
  function OrInt(x: Input<int>, fallback: int): int {
    if x.Given? && x.value != 0 then x.value else fallback
  }

  /** The shapes a `skills` body field can take that the controllers distinguish. */
  datatype SkillsValue =
    | CommaText(text: string)    // a string such as "React, Node.js"
    | Items(items: seq<string>)  // an array of strings
    | OtherValue                 // a number, boolean or object

  /** The `message` of an error reply. */
  datatype Message =
    | Text(text: string)                      // a fixed message literal of the controllers
    | MinimumCgpa(required: real)              // "Minimum CGPA of <required> is required."
    | BranchNotEligible(department: string)    // "Your branch (<department>) is not eligible."
    | ValidationFailed(paths: seq<string>)     // a schema ValidationError naming the failing paths
    | DuplicateKey(path: string)               // a unique-index violation (error code 11000)
    | TypeFault                                // a TypeError from reading a property of null

  /** The outcome of a request: its status code and body. */
  datatype Reply<+T> =
    | Ok(value: T)               // 200
    | Created(value: T)          // 201
    | BadRequest(msg: Message)   // 400
    | Unauthorized(msg: Message) // 401
    | Forbidden(msg: Message)    // 403
    | NotFound(msg: Message)     // 404
    | ServerError(msg: Message)  // 500
}
