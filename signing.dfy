/** `sign_payload`: the authorization token is the base64 of the SHA-256 of
    the request body followed by the shared secret. */
module Signing {
  import opened Outcomes
  import opened RubyText

  /** `Digest::SHA256.base64digest(payload)`, kept symbolic: a token is known
      only by the payload it digests, so two tokens agree exactly when their
      payloads do (the digest is taken to be free of collisions). */
  datatype Digest = Sha256Base64(payload: string)

  /** `sign_payload(request_body)` with the client's `shared_secret`, which is
      interpolated, so a `nil` secret contributes nothing. */
  function SignPayload(requestBody: string, sharedSecret: Option<string>): (token: Digest)
    ensures |token.payload| == |requestBody| + |Interpolate(sharedSecret)|
    ensures token.payload[..|requestBody|] == requestBody
    ensures token.payload[|requestBody|..] == Interpolate(sharedSecret)
  {
    Sha256Base64(requestBody + Interpolate(sharedSecret))
  }

  /** A consequence of taking the digest to be free of collisions (the
      symbolic `Digest` above), not of `sign_payload` itself: under one secret,
      equal tokens come from equal bodies. */
  lemma TokenDeterminesBody(b1: string, b2: string, sharedSecret: Option<string>)
    requires SignPayload(b1, sharedSecret) == SignPayload(b2, sharedSecret)
    ensures b1 == b2
  {
  }

  /** Signing the empty body (what `read_order` does) digests the secret alone. */
  lemma EmptyBodySignsSecret(sharedSecret: Option<string>)
    ensures SignPayload("", sharedSecret).payload == Interpolate(sharedSecret)
  {
  }
}
