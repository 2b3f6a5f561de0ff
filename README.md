# Klarna Checkout client — a Dafny model

This project models `Klarna::Checkout::Client`, the Ruby client for Klarna's checkout order API. The model covers:

- configuration: the environment and the shared secret, set through `initialize` or the setters;
- host resolution and the memoized HTTPS connection;
- the create / read / update protocol for orders;
- request signing;
- the mapping from a response status to success, one of eight typed errors, or nothing.

Modules:

- `Outcomes`: `Option` for Ruby's `nil`-or-value, and `Result` for raise-or-return.
- `RubyText`: the Ruby string behaviour the client depends on. This is `location.split('/').last` (fields, dropping trailing empty fields, `nil` for an empty split), ActiveSupport's `present?`/`blank?` with Ruby's `[[:space:]]` characters, and interpolation of `nil`.
- `StatusCodes`: the error classes and `handle_status_code`.
- `Signing`: `sign_payload`. `Digest::SHA256.base64digest` is symbolic: a token is `Sha256Base64(payload)`, so the model states exactly what is digested and treats the digest as collision-free.
- `Checkout`: the `Order` and `Client` classes, the requests and responses, and the path and body selection.
- `Scenarios`: three concrete exchanges, each stated as the postcondition of a method. (1) The host stays fixed after the environment changes. (2) Create takes its id from `Location`. (3) Update without an id reads the order back.

The HTTPS transport is an oracle. `Client.Send` appends the outgoing request to the client's `sent` log: host, verb, path, `Authorization` token and body. It then answers with `server(sent)`. `server` is a parameter of type `seq<Request> -> Response`, so it may depend on the whole history. A response is reduced to its status, its `Location` header and its body. `Client.new(args)` is modelled as the constructor (allocation with every field `nil`) followed by `Client.Initialize`.

The code behaves as follows in cases a reader might not expect; the model follows the code:

- A status outside the mapped set does not stop an operation. `handle_status_code` returns `nil` and the caller carries on as if the call had succeeded. For example, `create_order` assigns an id from a 302 response.
- A missing `Location` header makes `split` fail on `nil`, raising `NoMethodError`. The model has an error for this.
- `update_order` replaces the body with the whole order only for `nil` or `false`. An empty Hash, or any other truthy value, is sent as given.
- `write_order` tests `if order.id`, but `update_order` tests `order.id.present?`. So an order whose id is "" or blank is posted to `/checkout/orders/<id>` and is then read back, as if it had no id.
- A `nil` shared secret is interpolated as "", so the token then digests the body alone.

## Model

| member | source | states |
|---|---|---|
| `RubyText.LastSegment` | lib/klarna/checkout/client.rb:46 | `split('/').last` is `nil` or a non-empty field of the header that contains no `/` |
| `RubyText.LastSegmentNil` | lib/klarna/checkout/client.rb:46 | `split('/').last` is `nil` exactly when the header is made of slashes only (the empty header included) |
| `RubyText.LastSegmentTrailingSlash` | lib/klarna/checkout/client.rb:46 | a trailing `/` on the header changes nothing: `.../orders/abc/` yields what `.../orders/abc` does |
| `RubyText.LastSegmentOfUrl` | lib/klarna/checkout/client.rb:91 | for any URL ending in `/<id>` with a non-empty, slash-free id, the extracted value is that id |
| `RubyText.JoinFields` | lib/klarna/checkout/client.rb:46 | joining the fields of a split with the separator gives back the header |
| `RubyText.FieldsJoin` | lib/klarna/checkout/client.rb:46 | splitting undoes joining when no field holds the separator |
| `RubyText.Present` | lib/klarna/checkout/client.rb:86 | an id is present exactly when it is a String with at least one character outside `[[:space:]]`, so `nil`, "" and whitespace-only ids are not present |
| `StatusCodes.HandleStatusCode` | lib/klarna/checkout/client.rb:105-126 | it yields exactly for 200 and 201 and raises exactly for the eight error codes, with an error whose status is the code and whose message is the body; every other code does neither |
| `StatusCodes.RaisedByItsStatus` | lib/klarna/checkout/client.rb:109-124 | every error kind is raised by its own status and carries the body given |
| `StatusCodes.StatusCodeInjective` | lib/klarna/checkout/client.rb:109-124 | no two error kinds share a status |
| `Signing.SignPayload` | lib/klarna/checkout/client.rb:100-103 | what is digested is the body followed by the interpolated secret, with no separator |
| `Signing.TokenDeterminesBody` | lib/klarna/checkout/client.rb:100-102 | with the digest taken to be collision-free (see `Signing` above), equal tokens under one secret come from equal bodies; this follows from that assumption, not from the code |
| `Signing.EmptyBodySignsSecret` | lib/klarna/checkout/client.rb:54 | the read signature digests the secret alone |
| `Checkout.EnvironmentNamed` | lib/klarna/checkout/client.rb:19-27 | only "test" and "production" name an environment, and they name `:test` and `:production` |
| `Checkout.UpdateBody` | lib/klarna/checkout/client.rb:81-83 | a non-empty Hash becomes its JSON string; every other value, including an empty Hash, is left unchanged |
| `Checkout.WriteBody` | lib/klarna/checkout/client.rb:141 | the body sent is always truthy: the given body if it is truthy, otherwise the order's JSON |
| `Checkout.UpdateTransmits` | lib/klarna/checkout/client.rb:81-85 | update sends the encoded attributes for a non-empty Hash, the whole order for `nil`/`false`, and any other value as given |
| `Checkout.WritePath` | lib/klarna/checkout/client.rb:138-139 | the path starts with `/checkout/orders`, and it is exactly that collection path when the id is `nil` |
| `Checkout.WritePathRoundTrip` | lib/klarna/checkout/client.rb:138-139 | the id, or its absence, can be recovered from the write path |
| `Checkout.WritePathInjective` | lib/klarna/checkout/client.rb:138-139 | distinct ids (including `nil` versus "") are written to distinct paths |
| `Checkout.ReadPath` | lib/klarna/checkout/client.rb:52 | the read path is `/checkout/orders/` followed by the id; the `/` is there even for an empty id |
| `Checkout.WriteTargetsReadPath` | lib/klarna/checkout/client.rb:139 | an order with an id is updated at the path it is read from |
| `Checkout.FollowUpReadsLocation` | lib/klarna/checkout/client.rb:91-94 | the follow-up read requests the resource that the `Location` header names |
| `Checkout.Checked` | lib/klarna/checkout/client.rb:152 | a write or read fails exactly on the eight error statuses, with that status's error and the body; otherwise it proceeds with the response |
| `Checkout.SettingsFailOnUnknownEnvironment` | lib/klarna/checkout/client.rb:13-15 | applying the settings raises exactly when one of them names an unknown environment, and the error is the configuration error |
| `Checkout.SettingsLastWins` | lib/klarna/checkout/client.rb:13-15 | after successful settings, each key holds the value of its last occurrence, or the starting value if it never occurs |
| `Checkout.Client.Initialize` | lib/klarna/checkout/client.rb:12-17 | the setters run in order and the first raise stops them; on success a `nil` secret falls back to the global default |
| `Checkout.Client.SetSharedSecret` | lib/klarna/checkout/client.rb:10 | the writer stores the value given |
| `Checkout.Client.Environment` | lib/klarna/checkout/client.rb:21-23 | the getter returns `:test` when no environment was ever stored, and the stored one otherwise |
| `Checkout.Client.SetEnvironment` | lib/klarna/checkout/client.rb:25-32 | a valid name is stored; any other name raises the configuration error and leaves the stored environment unchanged |
| `Checkout.Client.Host` | lib/klarna/checkout/client.rb:34-40 | the production URL exactly when the environment is `:production`, and the testdrive URL in every other case |
| `Checkout.Client.HttpsConnection` | lib/klarna/checkout/client.rb:156-158 | the connection is created for the current host on first use and returned unchanged ever after |
| `Checkout.Client.Send` | lib/klarna/checkout/client.rb:142-151 | one request is appended to the log, sent to the memoized connection's host, and answered by the server; `Valid` (all requests share one host) is kept |
| `Checkout.Client.WriteOrder` | lib/klarna/checkout/client.rb:137-154 | exactly one POST, to the order's write path, with the selected body and a token signed over that body; the result is the checked response |
| `Checkout.Client.CreateOrder` | lib/klarna/checkout/client.rb:42-48 | an invalid order returns `false` and sends nothing. A valid one sends one POST of its JSON. The id is assigned from `Location` and the same order is returned, unless the status raised or `Location` is missing; in those cases the id stays untouched |
| `Checkout.Client.ReadOrder` | lib/klarna/checkout/client.rb:50-61 | exactly one GET of `/checkout/orders/<id>` with no body, signed over the empty body; the result is the parsed response body unless the status raised |
| `Checkout.Client.UpdateOrder` | lib/klarna/checkout/client.rb:78-96 | an invalid order returns `false` and sends nothing. Otherwise one POST with the selected body. A present id returns that response's body parsed and sends nothing more. Otherwise exactly one more request, a GET of the id from `Location`, whose parsed body is returned |
| `Scenarios.EnvironmentChangeKeepsHost` | lib/klarna/checkout/client.rb:156-158 | after switching to production, requests still go to the testdrive host the connection was opened for |
| `Scenarios.CreateAssignsLocationId` | lib/klarna/checkout/client.rb:45-47 | a 201 response with `Location: .../orders/abc123` gives the order the id "abc123", and the same order is returned |
| `Scenarios.UpdateWithoutIdReadsBack` | lib/klarna/checkout/client.rb:86-95 | updating an id-less order answered with `Location: .../orders/xyz789` sends two requests, the second a GET of `/checkout/orders/xyz789` |

## Left out

- The HTTP transport (Faraday), TLS and connection setup are foreign code. They are the `Server` oracle, and a connection is known only by its host.
- Request headers other than `Authorization` are not modelled: the media types in `Accept`/`Content-Type`, and the empty `Accept-Encoding`. They do not affect control flow. As written, line 146 ends in a comma, so `Accept` becomes an array; the model does not reflect this.
- Faraday's encoding of a non-String body (such as an empty Hash sent as given) is not modelled. The model records the Ruby value handed to `req.body`.
- SHA-256 and base64 are symbolic (`Signing.Digest`); their algorithms are not modelled.
- JSON: `to_json` of an order or a Hash, `JSON.parse` and `Order.new` are library and model code not in view. An order and a Hash carry their encodings. A parsed result is `Parsed(body)`, so a `JSON::ParserError` raised on a malformed body is not modelled.
- `Order#valid?` and `Order#to_json` are fixed fields of `Order`, so they do not change when the id is assigned. Ids are Strings or `nil`; other id types are not modelled.
- `initialize` is modelled only for the keys `shared_secret` and `environment`. A `public_send` of any other key is not modelled.
- `environment=` takes the name its argument converts to with `to_sym`. A value without `to_sym` (for example `nil`), which would raise `NoMethodError`, is not modelled.
- The optional block of `handle_status_code` is modelled as the `Yield` outcome. No caller passes one. `Integer(code)` is the identity on the integer statuses a response carries.
- The global `Klarna::Checkout.shared_secret` is a parameter of `Client.Initialize`.
- The shared secret is a String or `nil`. A `false` or other non-String secret is not modelled; `||=` would replace `false` with the default.
- `handle_status_code`'s default `msg = nil` is not modelled. Every caller passes the response body, so `HandleStatusCode` takes a String.
- Timeouts, retries and concurrent use of one client or one order are absent from the code and are not modelled.
- `lib/klarna/checkout/address.rb` is an attribute holder whose serialization depends on `json_sanitize`, which is not part of this model.
- The exceptions module is not part of this model. Its eight classes are the variants of `StatusCodes.ApiError`, and the `RuntimeError` raised by `environment=` is `Checkout.Error.RuntimeError`.
