/**
 * The client's error values: `ApiError`, carrying an HTTP status and,
 * optionally, the server's error envelope, and its subclass `AuthError`,
 * modelled as a second constructor of the same class.
 */
module Errors {
  import opened Wrappers
  import opened Json

  /**
   * Reading `envelope.error.code` does not throw: the `error` member is
   * present and not null (an `ErrorEnvelope` always has one).
   */
  predicate EnvelopeReadable(envelope: Option<Json>) {
    envelope.Some? && Truthy(envelope.value) ==>
      Get(envelope.value, "error").Some? && !Get(envelope.value, "error").value.JNull?
  }

  /** The envelope fields are copied only for a truthy `opts.envelope`. */
  predicate Carries(envelope: Option<Json>) {
    envelope.Some? && Truthy(envelope.value)
  }

  class ApiError {
    /** `Error.prototype.name` as the constructors set it. */
    const name: string
    const message: string
    const status: int
    /** `envelope.error.code`, `envelope.corr_id` and the envelope itself; None is undefined. */
    const code: Option<Json>
    const corrId: Option<Json>
    const causeEnvelope: Option<Json>

    /** `new ApiError(message, { status, envelope })`; None stands for an omitted option. */
    constructor (message: string, status: Option<int>, envelope: Option<Json>)
      requires EnvelopeReadable(envelope)
      ensures this.name == "ApiError" && this.message == message
      ensures this.status == (if status.Some? then status.value else 500)
      ensures Carries(envelope) ==>
        && this.code == Get(Get(envelope.value, "error").value, "code")
        && this.corrId == Get(envelope.value, "corr_id")
        && this.causeEnvelope == envelope
      ensures !Carries(envelope) ==> this.code.None? && this.corrId.None? && this.causeEnvelope.None?
    {
      this.name := "ApiError";
      this.message := message;
      this.status := status.GetOr(500);
      if Carries(envelope) {
        var err := Get(envelope.value, "error").value;
        this.code := Get(err, "code");
        this.corrId := Get(envelope.value, "corr_id");
        this.causeEnvelope := envelope;
      } else {
        this.code := None;
        this.corrId := None;
        this.causeEnvelope := None;
      }
    }

    /** `new AuthError(message, status)`: defaults "Authentication required" and 401, never an envelope. */
    constructor Auth(message: Option<string>, status: Option<int>)
      ensures this.name == "AuthError"
      ensures this.message == (if message.Some? then message.value else "Authentication required")
      ensures this.status == (if status.Some? then status.value else 401)
      ensures this.code.None? && this.corrId.None? && this.causeEnvelope.None?
    {
      this.name := "AuthError";
      this.message := message.GetOr("Authentication required");
      this.status := status.GetOr(401);
      this.code := None;
      this.corrId := None;
      this.causeEnvelope := None;
    }

    /** `instanceof AuthError`. */
    predicate IsAuth() {
      name == "AuthError"
    }
  }

  /** What an operation of the client can throw. */
  datatype Thrown =
    | Api(err: ApiError)
    /** `new Error(message)`. */
    | Plain(message: string)
    /** The SyntaxError of `JSON.parse` / `Response.json()` on text that is not JSON. */
    | Syntax
}
