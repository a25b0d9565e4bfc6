# phone-number-validate, modelled in Dafny

This project models the core of `phone-number-validate`, a command-line tool
that batch-validates telephone numbers against the Amazon Pinpoint
phone-number-validate service and prints the results as JSON in one of four
shapes. The model covers three pure pieces and the run that connects them:

- **Input normalizer** (`cmd/root.go`): the file's contents are split into
  lines, the lines are appended after the command-line arguments, and every
  candidate is checked against the E.164 pattern `^\+[1-9]\d{1,14}$`
  (ITU-T Recommendation E.164: at most 15 digits). Matching numbers are kept
  once each, in order of first occurrence. A blank candidate is dropped
  silently. A repeat draws a duplicate warning on standard output. Any other
  non-matching candidate draws a format warning on standard error.
- **Result aggregator** (`cmd/validate/validateResult.go`): the four Go result
  types become one `Aggregate` with two settings. `Detail` is long items
  (whole response) or short items (number only). `Filter` is all numbers or
  only invalid ones. A response is invalid iff its phone type is exactly
  `"INVALID"`. Each item carries the AWS CLI command that reproduces the call.
- **Batch orchestration** (`cmd/validate/validate.go`,
  `cmd/validate/validateCmdCliArgs.go`): the arguments are checked, the
  client is created, the result form is chosen from the two flags, one
  request is built per number, and the service is called once per request,
  in order. The loop stops at the first error.
- **The run** (`RunE` in `cmd/root.go`): read the candidates, clean them,
  stop without an error, after printing a notice and the usage text, if none
  is left, validate, and print only on success.

Modules: `Base` (Option, Result, the error kinds), `E164` (the pattern),
`Normalizer`, `FileLines`, `ValidateResult`, `CliArgs`, `Validation`, `Root`.
The model is functional: immutable datatypes and pure functions. The service,
the client set-up and the JSON encoder are parameters of the run.

Modelling notes:
- The pattern is a predicate on characters (`E164.IsE164`). It is checked
  against an automaton that follows the regex's structure
  (`E164.Matches`). Go's RE2 reads `\d` as ASCII `0-9` and `$` as end of
  text, so a line that still ends in `'\r'` is rejected.
- The seen-map of `cleanPhoneNumbersList` is a `set<string>`. As in the Go
  code, a non-blank candidate that fails the pattern is also marked as seen.
  This has no effect on the output.
- `Result()` is modelled by `ResultFields`: a map from each exposed JSON field
  name to its bucket. The only-invalid forms expose no `"Valid"` field.
- Errors are tagged by origin (`ReadFailure`, `InvalidArgs`, `ClientFailure`,
  `ServiceFailure`, `MarshalFailure`). Go passes each error value through
  unchanged, and the tag adds only where it came from.
- Like Go's named results, `ExecuteValidate` returns the partial aggregate
  together with a service error. `RunE` ignores that aggregate and prints
  nothing.
- The duplicate warning is printed on standard output (`fmt.Println`,
  cmd/root.go:86) and the format warning on standard error (cmd/root.go:99);
  `Normalizer.StreamOf` records this.

## Model

| member | source | states |
|---|---|---|
| E164.IsE164 | cmd/root.go:42 | The pattern as a predicate: '+', a digit 1-9, then 1 to 14 ASCII digits and nothing else. A match is 3 to 16 characters long and holds no space, '\r' or '\n' |
| E164.MatchesIffE164 | cmd/root.go:42 | The structural automaton for `^\+[1-9]\d{1,14}$` (ASCII digits, `$` = end of text) accepts exactly the strings of the declarative E.164 predicate |
| E164.E164Length | cmd/root.go:42 | A matching string is 3 to 16 characters long and carries 2 to 15 digits |
| E164.CarriageReturnRejected | cmd/root.go:42 | A candidate ending in `'\r'` (a CRLF file line) never matches the pattern |
| Normalizer.Step | cmd/root.go:73-104 | One loop iteration. The seen-map only grows. Output and warnings are only appended to. A candidate is appended only if it matches and was not seen. A non-blank candidate is either kept or warned about, and a blank is neither |
| Normalizer.Clean | cmd/root.go:61-106 | The loop over all candidates, first to last. Every kept string matches the pattern, and kept + warnings never exceeds the number of candidates |
| Normalizer.CleanIsReference | cmd/root.go:61-106 | The cleaning loop's output is the list of matching candidates at their first occurrence. Its warnings are the per-candidate warnings. Its seen-map is exactly the set of non-blank candidates processed |
| Normalizer.CleanAppend | cmd/root.go:73-104 | Per candidate: a blank changes nothing; a non-blank non-match adds one format warning; a repeat of a kept number adds one duplicate warning and is not appended; a new matching number is appended with no warning |
| Normalizer.StreamOf | cmd/root.go:86-99 | Duplicate warnings go to standard output and format warnings to standard error |
| Normalizer.CleanGuarantees | cmd/root.go:73-104 | Every kept string matches the pattern (length 3-16). A string is kept iff it matches and occurs in the input. The output has no duplicates, is no longer than the input, and follows first-occurrence order |
| Normalizer.FirstMatchesOrdered | cmd/root.go:73-104 | The kept numbers appear in the order their first occurrences appear in the input |
| Normalizer.CleanAccounting | cmd/root.go:73-104 | kept + warnings + blanks = number of candidates: every candidate is accounted for exactly once |
| Normalizer.CleanIdempotent | cmd/root.go:61-106 | Cleaning the cleaned list returns it unchanged and prints no warning |
| Normalizer.CleanExample | cmd/root.go:73-104 | `["+15551234567", "+15551234567", "bad", ""]` cleans to `["+15551234567"]` with one duplicate and one format warning |
| FileLines.ProcessFileContents | cmd/root.go:108-111 | Splitting on `"\n"` gives (number of newlines + 1) pieces, never an empty list; no piece holds a newline; joining the pieces with `"\n"` gives back the contents |
| FileLines.SplitJoin | cmd/root.go:108-111 | Joining a non-empty list of newline-free lines and splitting again gives back the same list |
| Root.AddPhoneNumbersFromConfigFile | cmd/root.go:113-140 | No file: the arguments alone. Unreadable file: its error. Readable file: the arguments followed by the file's lines, which join back to the contents |
| ValidateResult.AwsCliCommand | cmd/validate/validateResult.go:11-14 | The command is the fixed `aws pinpoint phone-number-validate --number-validate-request PhoneNumber=` prefix followed by exactly the original number |
| ValidateResult.CliCommandRoundTrip | cmd/validate/validateResult.go:11-14 | Reading the number back out of the command gives the response's original number |
| ValidateResult.CliCommandInjective | cmd/validate/validateResult.go:11-14 | Two responses get the same command iff they have the same original number |
| ValidateResult.LongItemFor | cmd/validate/validateResult.go:61-64 | A long item holds the whole response and a command naming its number |
| ValidateResult.ShortItemFor | cmd/validate/validateResult.go:128-132 | A short item holds only the original number and a command naming it |
| ValidateResult.Add | cmd/validate/validateResult.go:59-173 | An `INVALID` response appends one item to the invalid bucket only. Any other response appends one item to the valid bucket only when there is one, and otherwise changes nothing. The settings never change |
| ValidateResult.AddAllBuckets | cmd/validate/validateResult.go:59-173 | After any sequence of adds, each bucket is its old contents followed by the in-order items of the added responses of its class. The only-invalid forms gain no valid item |
| ValidateResult.SelectMembers | cmd/validate/validateResult.go:67-75 | A response is selected for a class iff it was added and its phone type puts it in that class |
| ValidateResult.AddAllFromNew | cmd/validate/validateResult.go:176-213 | From fresh buckets, the buckets are exactly the classified responses as items. With both buckets, valid + invalid = number of adds. The only-invalid forms keep no valid item |
| ValidateResult.BucketsIndexwise | cmd/validate/validateResult.go:59-173 | From fresh buckets, the i-th invalid item is built from the i-th INVALID response added, and the i-th valid item from the i-th other response when there is a valid bucket |
| ValidateResult.AddAllWellFormed | cmd/validate/validateResult.go:58-173 | Every sequence of adds keeps items of the configured detail level, and keeps the only-invalid forms free of valid items |
| ValidateResult.NewShortValidateResult | cmd/validate/validateResult.go:176-193 | Short items, empty buckets; the `"Valid"` field exists iff `onlyInvalid` is false |
| ValidateResult.NewLongValidateResult | cmd/validate/validateResult.go:196-213 | Long items, empty buckets; the `"Valid"` field exists iff `onlyInvalid` is false |
| ValidateResult.ResultFields | cmd/validate/validateResult.go:39-157 | The rendered object always has `"Invalid"` holding the invalid bucket. It has `"Valid"` exactly for the all-numbers forms. It has no other field |
| ValidateResult.ExampleLongAll | cmd/validate/validateResult.go:59-76 | A `MOBILE` response in the long, all-numbers form renders as one valid long item and an empty invalid list |
| ValidateResult.ExampleShortOnlyInvalid | cmd/validate/validateResult.go:160-173 | An `INVALID` response in the short, only-invalid form renders as one short invalid item and no `"Valid"` field |
| CliArgs.Validate | cmd/validate/validateCmdCliArgs.go:17-27 | The arguments are accepted iff the phone-number list is non-empty |
| CliArgs.PhoneNumberValidateRequests | cmd/validate/validateCmdCliArgs.go:30-52 | One request per phone number, the i-th carrying the i-th number; an empty list gives no requests |
| CliArgs.RequestsRoundTrip | cmd/validate/validateCmdCliArgs.go:35-50 | The numbers read back from the requests are the list itself: nothing is filtered, merged or reordered, and repeats stay repeated |
| Validation.FirstFailure | cmd/validate/validate.go:56-65 | Every call before the returned index succeeds, and the call at that index, if any, fails |
| Validation.SendAll | cmd/validate/validate.go:56-72 | The loop adds exactly the responses before the first failing call, in order. With no failure all requests are sent and there is no error. Otherwise requests 0..k are sent and the k-th call's error is returned |
| Validation.ExecuteValidate | cmd/validate/validate.go:28-75 | No numbers: an error and no call. Client failure: its error and no call. Otherwise `Short` picks short items, `OnlyInvalid` picks the only-invalid form, and the result is the fresh aggregate after the responses before the first failing call |
| Validation.SentIsPrefix | cmd/validate/validate.go:56-65 | The requests sent are always a prefix of the request list, and all of it when there is no error |
| Validation.FailFast | cmd/validate/validate.go:56-65 | When call k is the first to fail, its error is returned and exactly requests 0..k were sent |
| Validation.AllSucceed | cmd/validate/validate.go:56-74 | When every call succeeds, there is no error, every request was sent, and the result is the fresh aggregate with every response added in request order |
| Root.RunE | cmd/root.go:148-203 | The run: arguments then file lines, cleaned, stopped if empty, validated, rendered and printed only on success. An unreadable file ends it before cleaning. It never ends with the empty-arguments error. Nothing to validate means no service call. Printing implies a ready client and at least one successful call |
| Root.ReadFailureStops | cmd/root.go:158-164 | An unreadable file ends the run with its error, before any warning or request |
| Root.NothingToValidateStops | cmd/root.go:169-174 | When cleaning leaves nothing, the run ends without an error and sends no request |
| Root.SentNumbersAreClean | cmd/root.go:166-186 | The numbers sent are a prefix of the cleaned list: distinct E.164 numbers taken from the candidates |
| Root.NeverInvalidArgs | cmd/root.go:169-186 | The run never ends with the empty-arguments error of ExecuteValidate |
| Root.ServiceFailureNotPrinted | cmd/root.go:185-202 | If ExecuteValidate returns an error, that error is the run's outcome and nothing is printed |
| Root.PrintedIsFullAggregate | cmd/root.go:185-202 | A printed run sent every cleaned number's request, every call succeeded, and the text is the rendering of the full aggregate |

## Left out

- Reading the phone-number file (`cmd/config/config.go`): opening, chunked reads and the 10 MB cap are I/O. The run takes the file as not given, read (its contents), or unreadable (an error message).
- The AWS SDK (`cmd/validate/validatePinpointWrapper.go`): loading the configuration and the network call are foreign. Client creation is a `ClientSetup` parameter that may fail, and the service is a pure function from request to response or error message. A real service need not answer the same request the same way twice.
- The JSON text from `marshalJson` / `json.MarshalIndent`: the encoder is a library. `ResultFields` states which fields exist and what they hold, and the run takes the encoder as a `render` parameter that may fail.
- Cobra and Viper: flag binding, `init`, `Execute`, `os.Exit`, the usage text and the version string are CLI plumbing. The flags are plain parameters of `RunE`.
- The warning message text: warnings are returned as a sequence with their kind and candidate, not printed. The relative order of lines on the two output streams is not modelled.
- The panic in `e_164Regex`: the pattern is a constant that compiles, so that branch is unreachable. The pattern is a predicate instead.
- The text of the `invalid args: %v` error: it is modelled as the constant `InvalidArgs`.
- Nil pointers: a response whose `OriginalPhoneNumber`, `PhoneType` or `NumberValidateResponse` is nil would panic in Go. The model assumes the service always fills them.
- Pointer aliasing of the shared invalid slice in `NewShortValidateResult` and `NewLongValidateResult`: buckets are values. The aliased valid slice of the only-invalid forms is never reachable.
- Byte strings: Go strings are byte sequences and the model uses `seq<char>`. The pattern only accepts ASCII characters, and deduplication is exact equality in both.
