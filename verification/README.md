# Login notifier: public-IP selection, geolocation fallback, alert composition

A Dafny model of the login notifier in `mailer.js`. When a user logs in, the
notifier does three things:

- It takes the forwarded-for string of the request, splits it on commas and
  trims each entry. It keeps the first entry that starts with none of the
  literal prefixes `10.`, `172.` and `192.168`. The last prefix has no dot,
  and no finer range check is made.
- It resolves that address to a location through two providers. The primary
  provider (ipapi.co) is used when it answers with no `error` and a non-empty
  `city`. Otherwise the backup provider (ipwho.is) is used when it reports
  `success`. Otherwise the lookup returns the sentinel `"Unknown location"`.
- It composes the alert e-mail: the subject `"🔐 Login Alert: " + username`, and
  a three-line body with the user and time, the address, and the location.
  When no address is selected, no lookup is made and the location is the
  lower-case sentinel `"unknown location"`.

The model is pure, like the code it follows:

- `js.dfy` (module `Js`) gives the JavaScript primitives the notifier relies
  on. These are the values a template string renders (`undefined`, `null`, a
  string), falsiness, `||` defaults, `split` on one character and `trim`,
  plus `join`, which serves only to specify `split`.
- `mailer.dfy` (module `Mailer`) models `lookupIp` and `sendLoginNotification`
  up to the send.

The two providers' HTTP answers are inputs: `PrimaryAnswer` and `BackupAnswer`
say what each provider would answer if asked. The resulting `LoginNotice`
records which address, if any, was actually looked up.

Behaviour of the code that is easy to misread:

- The third private prefix is `192.168` with no trailing dot.
- The primary answer is rejected when `city` is empty, as well as when it is
  missing.
- The two sentinels differ in capitalisation: `"Unknown location"` from the
  lookup, `"unknown location"` when no lookup is made.
- The lookup is also skipped when the first non-private entry is the empty
  string. That entry is falsy, so `if (publicIp)` fails. The body then shows
  the raw forwarded-for string.

## Model

| member | source | states |
|---|---|---|
| `Js.Split` | mailer.js:36 | `split(',')` yields at least one piece, no piece holds the separator, and joining the pieces gives the input back |
| `Js.SplitJoin` | mailer.js:36 | splitting undoes joining for separator-free pieces, so `split` and `join` are exact inverses |
| `Js.SplitCons` | mailer.js:36 | a separator-free first piece is split off on its own, and the rest splits independently |
| `Js.TrimStart` | mailer.js:36 | the result is a suffix of the input; everything dropped is white space; the result does not start with white space |
| `Js.TrimEnd` | mailer.js:36 | the result is a prefix of the input; everything dropped is white space; the result does not end with white space |
| `Js.Trim` | mailer.js:36 | `trim()` leaves no white space at either end and never lengthens the string |
| `Js.TrimPadding` | mailer.js:36 | `trim()` undoes white-space padding on both sides of a trimmed string |
| `Js.TrimIdempotent` | mailer.js:36 | trimming twice is the same as trimming once |
| `Js.OrElse` | mailer.js:15 | the JavaScript or-default (`v` or a fallback) gives the fallback whenever `v` is missing, null or empty, and otherwise the fallback or the text of `v`; with a non-empty fallback, such as `"Unknown ISP"`, the result is never blank |
| `Mailer.Candidates` | mailer.js:36 | one candidate per comma-separated piece, none with white space at either end |
| `Mailer.FirstPublic` | mailer.js:37 | `find` gives the position of the first entry that starts with no private prefix, every earlier entry starting with one; None exactly when all do |
| `Mailer.SelectPublicIp` | mailer.js:36-37 | the selected address is a trimmed candidate that starts with no private prefix, all earlier candidates start with one, and None means every candidate does |
| `Mailer.SelectedIsFirstPublicPiece` | mailer.js:36-37 | the selected address equals the trimmed form of a comma-separated piece of the raw input, and every earlier piece, once trimmed, looks private |
| `Mailer.NoneSelectedIffAllPrivate` | mailer.js:36-37 | no address is selected if and only if every trimmed piece starts with `10.`, `172.` or `192.168` |
| `Mailer.CandidatesCons` | mailer.js:36 | a leading entry contributes its trimmed form as the first candidate, ahead of the rest's candidates |
| `Mailer.PrivateHopSkipped` | mailer.js:37 | a leading entry that looks private is skipped and selection continues with the rest of the chain |
| `Mailer.PublicAfterPrivateHop` | mailer.js:36-37 | after a comma-free entry that looks private, a comma-free public entry is selected in its trimmed form |
| `Mailer.SelectsPastPrivateHop` | mailer.js:36-37 | for `"10.0.0.1, 203.0.113.5"` the selected address is `203.0.113.5` |
| `Mailer.SingleEntry` | mailer.js:36-37 | a one-entry chain selects the trimmed entry unless it looks private |
| `Mailer.Describe` | mailer.js:15-26 | a formatted location ends with `)` and so is never either sentinel |
| `Mailer.LookupIp` | mailer.js:5-32 | the lookup always returns a string and never fails outward; the result is `"Unknown location"` exactly when neither provider's answer is usable; it is never the lower-case sentinel |
| `Mailer.FirstYield` | mailer.js:6-31 | an ordered chain of attempts yields the result of the first attempt that yields, every earlier attempt having yielded nothing; the default comes back only when no attempt yields |
| `Mailer.LookupIsProviderChain` | mailer.js:6-31 | `lookupIp` is the ordered chain primary, then backup, with `"Unknown location"` at the end |
| `Mailer.PrimaryWins` | mailer.js:11-15 | a primary answer with no error and a non-empty city gives `city, region, country_name (ISP: org or "Unknown ISP")`, whatever the backup answers |
| `Mailer.BackupFallback` | mailer.js:16-26 | when the primary answer is unusable and the backup reports success, the result uses the backup's city, region and country, with the ISP defaulting to `"Unknown ISP"` when `connection.isp` is missing or empty |
| `Mailer.ComposeNotice` | mailer.js:34-51 | the sender is fixed; the subject is the alert prefix followed by the user name; a lookup is made exactly when a non-empty address is selected, and for that address; the body is made of the shown address and the location |
| `Mailer.NoLookupWithoutPublicIp` | mailer.js:40-43 | when every trimmed entry looks private: no lookup, the location is exactly `"unknown location"`, the body shows the raw input, and the providers' answers do not matter |
| `Mailer.LookupOfSelectedIp` | mailer.js:40-50 | a selected non-empty address is the one looked up and the one shown in the body, next to the lookup's result |
| `Mailer.LocationRevealsLookup` | mailer.js:29-43 | the location is `"unknown location"` exactly when no lookup was made, and `"Unknown location"` exactly when a lookup was made and both providers failed |
| `Mailer.BodyReadsBack` | mailer.js:50 | the body splits on line breaks back into its three lines `User "<username>" logged in at <timestamp>`, `IP: <ip>` and `Location: <location>` when no inserted value holds a line break |
| `Mailer.EmptyEntryBlocksLookup` | mailer.js:37-50 | an empty leading entry is selected by `find` but is falsy, so no lookup is made and the body shows the raw input even when a public address follows |

## Left out

- The HTTP requests to ipapi.co and ipwho.is (mailer.js:8-9, 21-22) are network I/O. Their outcomes are the inputs `PrimaryAnswer` and `BackupAnswer`. Transport errors, JSON parse errors and a non-object JSON body are all `PrimaryFailed` or `BackupFailed`.
- Provider fields are modelled as strings, `null` or missing. A number or an object would render differently inside the template strings. `data.error` and `data2.success` are reduced to their truthiness.
- The send through the Resend API and its result handling (mailer.js:53-72) are network I/O and logging. Every send failure is caught and only logged, so the notifier never reports it to its caller. The model stops at the composed e-mail.
- `console.warn`, `console.error` and `console.log` are side effects only.
- `process.env` and `dotenv` are environment loading. The recipient `EMAIL_TO` is the parameter `to`. The API key is not modelled.
- async/await is not modelled: the steps run strictly in sequence.
- A forwarded-for value that is not a string would make `split` throw. The model takes the raw input as a string.
- JavaScript strings are UTF-16 code units; here they are sequences of Unicode scalar values. `trim` removes the ECMAScript white-space and line-terminator characters.
- index.js is not part of this model. Its server setup, password hashing, login route and token signing are framework glue and foreign calls. In this version it does not call the notifier.
