# Prediction sessions and registration validators of "Bin There, Done That"

This project models the two pieces of sequential logic in the backend of the
"Bin There, Done That" waste-sorting web application, and proves properties
of them in Dafny.

**The prediction-session tracker** (`backend/middleware/predictionSession.js`).
It keeps an in-memory map from a session id to a record
`{timestamp, hasPrediction, disposalConfirmed}`. It is there to stop a caller
from confirming a disposal (which earns a reward) without a prediction, or
more than once per prediction.
- An authenticated caller's id is `user_` followed by its user id.
- An anonymous caller's id is `anon_` followed by the base64 text (section 4
  of RFC 4648) of the UTF-8 bytes of its address and user agent, written one
  after the other. A missing or empty address or user agent reads as `unknown`.
- Module `PredictionSession` specifies each operation as a function on the
  map: `Tracked`, `CanConfirm`, `Confirmed`, `Swept` and `Stats`.
- Class `PredictionSessions` holds the map in a field and performs the
  operations in place, with the clock passed in as `now`. The cleanup timer's
  callback is the method `Sweep`, and the counting loop is `GetSessionStats`.
- Modules `Utf8` and `Base64` model what `Buffer.from(text).toString("base64")`
  computes. A base64 decoder, the encoder's inverse, is proved correct so that
  distinct keys are shown to get distinct ids.

The main results:
- Ids of authenticated and anonymous callers never coincide.
- Authenticated ids are injective in the user id.
- Anonymous ids are injective in the text *address + user agent*, but not in
  the pair: `AnonymousCallersCanCollide` shows two different requests with the
  same id. This weakness is known and accepted.
- Every reachable map holds `hasPrediction = true` in every record.
- Along any sequence of calls, the confirmations that pass the
  `canConfirmDisposal` check never outnumber the predictions made
  (`GrantedBoundedByPredictions`, `AtMostOneConfirmationPerPrediction`).

**The input validators** (`backend/utils/validation.js`), in module `Validation`.
- Inputs come from a JSON request body, so they are modelled as `JsValue`:
  `undefined`, `null`, a string, or another value carried as its `String()`
  text. That text is what a regular-expression test sees.
- The email pattern `^[^\s@]+@[^\s@]+\.[^\s@]+$` is written as a predicate. It
  is proved equal to the plain-words rule: no white space, exactly one `@`,
  and a `.` after it that is neither the first nor the last character there.
- Lengths are JavaScript lengths, counted in UTF-16 code units: a character
  outside the Basic Multilingual Plane counts as two.
- `trim` is specified by an independent description (`TrimmedAt`) that has
  exactly one solution.
- The password check rejects lengths above 128. Its message reads "less than
  128 characters", yet a password of exactly 128 code units is accepted. The
  model keeps both as written.

## Model

| member | source | states |
|---|---|---|
| `Utf8.EncodeChar` | backend/middleware/predictionSession.js:32 | A character encodes to the shortest UTF-8 form for its value: 1 byte below U+0080, 2 below U+0800, 3 below U+10000, else 4. The first byte gives the length, every later byte lies in 0x80-0xBF, and the character's scalar value can be read back. ASCII characters encode to their own code. |
| `Utf8.Encode` | backend/middleware/predictionSession.js:32 | A string's encoding has between one and four bytes per character, and is empty exactly when the string is. |
| `Utf8.EncodeAscii` | backend/middleware/predictionSession.js:32 | An ASCII string encodes to its character codes, one byte each. |
| `Utf8.EncodeInjective` | backend/middleware/predictionSession.js:32 | Different strings get different UTF-8 encodings. |
| `Base64.Encode` | backend/middleware/predictionSession.js:32 | The base64 text has 4 characters per started group of 3 bytes. |
| `Base64.EncodeAlphabet` | backend/middleware/predictionSession.js:32 | Every character of the encoding is in the standard alphabet, except `=` padding in the last two positions. |
| `Base64.RoundTrip` | backend/middleware/predictionSession.js:32 | Decoding the encoding of any byte sequence gives back that sequence. |
| `Base64.EncodeInjective` | backend/middleware/predictionSession.js:32 | Different byte sequences get different base64 texts. |
| `Base64.GroupVectors` | backend/middleware/predictionSession.js:32 | The RFC 4648 section 10 vectors for a full group, a two-byte tail and a one-byte tail: `foo`, `fo` and `f` give `Zm9v`, `Zm8=` and `Zg==`. |
| `Base64.TextVector` | backend/middleware/predictionSession.js:32 | The bytes of `foob` encode to `Zm9vYg==`, as RFC 4648 section 10 lists. |
| `PredictionSession.OrElse` | backend/middleware/predictionSession.js:30-31 | JavaScript's or-else on a string: the value when it is a non-empty string, the fallback otherwise. |
| `PredictionSession.AnonymousKey` | backend/middleware/predictionSession.js:30-32 | The key is the address followed directly by the user agent, with nothing between them. The address is `ip` when present, else the remote address when present, else `unknown`. The user agent is the header when present, else `unknown`. |
| `PredictionSession.SessionId` | backend/middleware/predictionSession.js:25-33 | The id starts with `user_` exactly for an authenticated caller, followed by its user id, and with `anon_` exactly for an anonymous one. |
| `PredictionSession.AnonymousSessionId` | backend/middleware/predictionSession.js:30-32 | An anonymous id is `anon_` followed by the padded base64 text of the UTF-8 key. A missing or empty address or user agent contributes `unknown`. |
| `PredictionSession.UserAndAnonymousDisjoint` | backend/middleware/predictionSession.js:25-33 | No authenticated id equals an anonymous id. |
| `PredictionSession.UserSessionIdInjective` | backend/middleware/predictionSession.js:26-28 | Two authenticated callers share an id if and only if they share a user id. |
| `PredictionSession.AnonymousSessionIdInjective` | backend/middleware/predictionSession.js:30-32 | Two anonymous callers share an id if and only if their address + user agent texts are equal. |
| `PredictionSession.AnonymousCallersCanCollide` | backend/middleware/predictionSession.js:30-32 | Two different anonymous requests (address `10.0.0.1` with agent `2X`, and `10.0.0.12` with `X`) get the same id. |
| `PredictionSession.Tracked` | backend/middleware/predictionSession.js:38-46 | After a prediction, the id holds a fresh record (`now`, predicted, not confirmed). Every other key is unchanged and no key is lost. |
| `PredictionSession.CanConfirm` | backend/middleware/predictionSession.js:51-61 | A caller without a record cannot confirm. While every record carries a prediction, a caller can confirm exactly when its record is not yet confirmed. |
| `PredictionSession.Confirmed` | backend/middleware/predictionSession.js:66-77 | An absent id leaves the map unchanged. A present id gets `disposalConfirmed` set, keeping its timestamp and `hasPrediction`. Other keys are untouched, and the id can no longer confirm. |
| `PredictionSession.Swept` | backend/middleware/predictionSession.js:11-18 | A key survives the sweep exactly when its record's age does not exceed the timeout. Survivors keep their records. |
| `PredictionSession.Stats` | backend/middleware/predictionSession.js:82-93 | `total` is the map's size. Both flag counts are at most `total`. |
| `PredictionSession.StatsOfPredicted` | backend/middleware/predictionSession.js:82-93 | When every record carries a prediction, `withPredictions == total` and `confirmed <= withPredictions`. |
| `PredictionSession.TrackEnablesConfirm` | backend/middleware/predictionSession.js:38-61 | After a prediction for an id, that id can confirm. |
| `PredictionSession.ConfirmIdempotent` | backend/middleware/predictionSession.js:66-77 | Confirming twice gives the same map as confirming once. Confirming one id leaves every other id's ability to confirm unchanged. |
| `PredictionSession.SweepBoundary` | backend/middleware/predictionSession.js:9-18 | A prediction one millisecond past the timeout is swept away. One exactly as old as the timeout survives and can still confirm. |
| `PredictionSession.RunKeepsAllPredicted` | backend/middleware/predictionSession.js:11-77 | Any sequence of predictions, confirmations and sweeps keeps `hasPrediction` true in every record. |
| `PredictionSession.GrantedBoundedByPredictions` | backend/middleware/predictionSession.js:38-77 | Granted confirmations, plus one if a confirmation is still open at the end, never exceed the predictions made, plus one if a confirmation was open at the start. |
| `PredictionSession.AtMostOneConfirmationPerPrediction` | backend/middleware/predictionSession.js:38-77 | From an empty tracker, granted confirmations never exceed predictions. A caller that never predicted can never confirm. |
| `PredictionSession.PredictionSessions.constructor` | backend/middleware/predictionSession.js:5 | The tracker starts with an empty map. |
| `PredictionSession.PredictionSessions.TrackPrediction` | backend/middleware/predictionSession.js:38-46 | Returns the caller's id. The new map is `Tracked` of the old one, and the all-predicted invariant is kept. |
| `PredictionSession.PredictionSessions.CanConfirmDisposal` | backend/middleware/predictionSession.js:51-61 | False when the caller has no record. Otherwise true exactly when the record has a prediction and no confirmation. Changes nothing. |
| `PredictionSession.PredictionSessions.ConfirmDisposal` | backend/middleware/predictionSession.js:66-77 | Returns whether the caller had a record. The new map is `Confirmed` of the old one. |
| `PredictionSession.PredictionSessions.Sweep` | backend/middleware/predictionSession.js:11-18 | Deleting stale keys one at a time leaves exactly `Swept` of the old map. |
| `PredictionSession.PredictionSessions.GetSessionStats` | backend/middleware/predictionSession.js:82-93 | The counting loop returns `Stats` of the map. Under the invariant, `withPredictions == total`. |
| `Validation.Utf16Length` | backend/utils/validation.js:42-46 | A string's JavaScript length is between its number of characters and twice that. It equals the number of characters exactly when no character lies outside the Basic Multilingual Plane. |
| `Validation.IsWhitespace` | backend/utils/validation.js:11 | Among ASCII characters, exactly space and tab through carriage return are white space. No white-space character is a username character, `@` or `.`. |
| `Validation.MatchesEmailPattern` | backend/utils/validation.js:11 | A text the pattern accepts has at least 5 characters and contains an `@` and a `.`. |
| `Validation.IsValidEmail` | backend/utils/validation.js:10-13 | A value is accepted exactly when its text meets the restated rule (no white space, one `@`, a `.` after it that is neither first nor last). `undefined` and `null` are rejected. |
| `Validation.EmailPatternRestated` | backend/utils/validation.js:10-13 | The email pattern accepts a text exactly when the text has no white space and exactly one `@` with something before it, and a `.` after the `@` that is neither first nor last there. |
| `Validation.IsValidUsername` | backend/utils/validation.js:20-27 | True exactly for strings of 3 to 30 characters, all in `[A-Za-z0-9_-]`. False for missing, empty and non-string values. |
| `Validation.ValidatePassword` | backend/utils/validation.js:34-67 | Anything but a non-empty string gives exactly "Password is required". Otherwise the password is valid exactly when its length is 6 to 128, with at most one error, which names the violated bound. `isValid` always means no errors. |
| `Validation.LeadingWhitespace` | backend/utils/validation.js:76 | Counts the white space at the start, stopping at the first other character. |
| `Validation.TrailingWhitespace` | backend/utils/validation.js:76 | Counts the white space at the end, stopping at the last other character. |
| `Validation.Trim` | backend/utils/validation.js:76 | The result is a contiguous piece of the input. Only white space is dropped on either side, and the result neither starts nor ends with white space. |
| `Validation.TrimUnique` | backend/utils/validation.js:76 | Any piece of the input described that way is the one `Trim` returns. |
| `Validation.TrimIdempotent` | backend/utils/validation.js:76 | Trimming twice is trimming once. |
| `Validation.SanitizeInput` | backend/utils/validation.js:74-77 | Non-strings come back unchanged. Strings come back trimmed. |
| `Validation.SanitizeIdempotent` | backend/utils/validation.js:74-77 | Sanitizing twice is sanitizing once. |
| `Validation.ValidateRegistrationData` | backend/utils/validation.js:84-110 | Valid exactly when username, email and password are all accepted, and exactly when there are no errors. The errors are exactly the username message if that check fails, then the email message if that check fails, then the password's own errors, with nothing else and no repeats. At most 3 errors. |

## Left out

- The `setInterval` timer and `CLEANUP_INTERVAL`: only the callback's body is modelled, as `Sweep(now)`. `Date.now()` is the parameter `now`.
- Concurrency: there is none within one call on Node's event loop, and none is modelled.
- Iteration order: `Sweep` and `GetSessionStats` visit keys in an unspecified order, not insertion order. Their results do not depend on the order.
- `req.user.id` is taken as the text the template literal produces. The decoding of the JSON Web Token that sets `req.user` is not part of this model.
- The header lookup `req.get("User-Agent")` is a field of the request. Header-name case folding is not modelled.
- Unpaired UTF-16 surrogates: a Dafny `char` cannot hold one, so Node's replacement of them by U+FFFD before encoding is not modelled.
- Non-string JavaScript values are represented by their `String()` text. Values whose coercion throws, such as symbols, cannot come from a JSON body and are not modelled.
- `validateRegistrationData` on a `null` or `undefined` argument throws on destructuring. The model takes a record whose missing fields are `undefined`.
- Routes, controllers, the user store, password hashing, tokens, the classification client and the whole frontend are not part of this model.
