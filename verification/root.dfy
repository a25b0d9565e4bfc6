/** The command's RunE in cmd/root.go: gather candidates from the arguments
    and the optional file, clean them, stop when none is left, validate the
    rest, and print the rendered aggregate only when validation succeeded. */
module Root {
  import opened Base
  import opened E164
  import opened Normalizer
  import opened FileLines
  import opened ValidateResult
  import opened CliArgs
  import opened Validation

  /** The phone-number file as the run sees it: not given, read, or unreadable. */
  datatype FileSource = NoFile | FileRead(contents: string) | FileUnreadable(message: string)

  /** How a run ends. */
  datatype Status =
    | NothingToValidate    // "No Phone Numbers to validate." and the usage text; not an error
    | Printed(text: string) // the rendered aggregate on standard output
    | Failed(error: Error)  // the run's error; nothing is printed

  /** The observable effects of one run: the warnings printed while cleaning,
      the validation requests sent, and how the run ended. */
  datatype Run = Run(warnings: seq<Warning>, sent: seq<Request>, status: Status)

  /** addPhoneNumbersFromConfigFile: the file's lines come after the arguments. */
  function AddPhoneNumbersFromConfigFile(args: seq<string>, file: FileSource): (r: Result<seq<string>, Error>)
    ensures file.NoFile? ==> r == Ok(args)
    ensures file.FileUnreadable? ==> r == Err(ReadFailure(file.message))
    ensures file.FileRead? ==>
      && r.Ok?
      && |r.value| == |args| + CountNewlines(file.contents) + 1
      && r.value[..|args|] == args
      && Join(r.value[|args|..]) == file.contents
  {
    match file
    case NoFile => Ok(args)
    case FileRead(contents) =>
      var lines := ProcessFileContents(contents);
      assert (args + lines)[|args|..] == lines;
      Ok(args + lines)
    case FileUnreadable(message) => Err(ReadFailure(message))
  }

  /** The run. `client` and `service` stand for the validation service,
      `render` for the JSON encoding of the exposed fields. */
  function RunE(
    args: seq<string>, file: FileSource, short: bool, onlyInvalid: bool,
    client: ClientSetup, service: Request -> Result<Response, string>,
    render: map<string, seq<Item>> -> Result<string, string>): (run: Run)
    // an unreadable file stops the run before cleaning
    ensures file.FileUnreadable? ==> run == Run([], [], Failed(ReadFailure(file.message)))
    // the empty-list check before validation makes the argument check unreachable
    ensures run.status != Failed(InvalidArgs)
    // nothing to validate means no call to the service
    ensures run.status == NothingToValidate ==> run.sent == []
    // printing happens only after at least one successful call, and only on success
    ensures run.status.Printed? ==> run.sent != [] && client.ClientReady?
  {
    match AddPhoneNumbersFromConfigFile(args, file)
    case Err(e) => Run([], [], Failed(e))
    case Ok(candidates) =>
      var cleaned := Clean(candidates);
      if |cleaned.cleaned| == 0 then Run(cleaned.warnings, [], NothingToValidate)
      else
        var out := ExecuteValidate(Args(cleaned.cleaned, short, onlyInvalid), client, service);
        if out.err.Some? then Run(cleaned.warnings, out.sent, Failed(out.err.value))
        else
          match render(ResultFields(out.result.value))
          case Err(m) => Run(cleaned.warnings, out.sent, Failed(MarshalFailure(m)))
          case Ok(text) => Run(cleaned.warnings, out.sent, Printed(text))
  }

  /** An unreadable file ends the run before cleaning: no warning, no request. */
  lemma ReadFailureStops(
    args: seq<string>, message: string, short: bool, onlyInvalid: bool,
    client: ClientSetup, service: Request -> Result<Response, string>,
    render: map<string, seq<Item>> -> Result<string, string>)
    ensures RunE(args, FileUnreadable(message), short, onlyInvalid, client, service, render)
      == Run([], [], Failed(ReadFailure(message)))
  {
  }

  /** When cleaning leaves nothing, the run stops without an error and without
      calling the service. */
  lemma NothingToValidateStops(
    args: seq<string>, file: FileSource, short: bool, onlyInvalid: bool,
    client: ClientSetup, service: Request -> Result<Response, string>,
    render: map<string, seq<Item>> -> Result<string, string>)
    requires AddPhoneNumbersFromConfigFile(args, file).Ok?
    requires Clean(AddPhoneNumbersFromConfigFile(args, file).value).cleaned == []
    ensures RunE(args, file, short, onlyInvalid, client, service, render).status == NothingToValidate
    ensures RunE(args, file, short, onlyInvalid, client, service, render).sent == []
  {
  }

  /** The format gate: the numbers sent are a prefix of the cleaned list, so
      each is a distinct E.164 number taken from the candidates. */
  lemma SentNumbersAreClean(
    args: seq<string>, file: FileSource, short: bool, onlyInvalid: bool,
    client: ClientSetup, service: Request -> Result<Response, string>,
    render: map<string, seq<Item>> -> Result<string, string>)
    requires AddPhoneNumbersFromConfigFile(args, file).Ok?
    ensures var sent := RequestedNumbers(RunE(args, file, short, onlyInvalid, client, service, render).sent);
      var candidates := AddPhoneNumbersFromConfigFile(args, file).value;
      && sent <= Clean(candidates).cleaned
      && (forall i :: 0 <= i < |sent| ==> IsE164(sent[i]) && sent[i] in candidates)
      && Distinct(sent)
  {
    var candidates := AddPhoneNumbersFromConfigFile(args, file).value;
    var cleaned := Clean(candidates).cleaned;
    RunSent(args, file, short, onlyInvalid, client, service, render);
    if cleaned != [] {
      var a := Args(cleaned, short, onlyInvalid);
      SentIsPrefix(a, client, service);
      RequestsRoundTrip(a);
      PrefixOfNumbers(ExecuteValidate(a, client, service).sent, PhoneNumberValidateRequests(a));
    }
    CleanPrefix(candidates, RequestedNumbers(RunE(args, file, short, onlyInvalid, client, service, render).sent));
  }

  /** A prefix of the cleaned list keeps its guarantees. */
  lemma CleanPrefix(candidates: seq<string>, sent: seq<string>)
    requires sent <= Clean(candidates).cleaned
    ensures forall i :: 0 <= i < |sent| ==> IsE164(sent[i]) && sent[i] in candidates
    ensures Distinct(sent)
  {
    var cleaned := Clean(candidates).cleaned;
    CleanGuarantees(candidates);
    forall i | 0 <= i < |sent| ensures IsE164(sent[i]) && sent[i] in candidates {
      assert sent[i] == cleaned[i];
    }
    forall i, j | 0 <= i < j < |sent| ensures sent[i] != sent[j] {
      assert sent[i] == cleaned[i] && sent[j] == cleaned[j];
    }
  }

  /** The requests a run sends are those of ExecuteValidate on the cleaned list, if it is called. */
  lemma RunSent(
    args: seq<string>, file: FileSource, short: bool, onlyInvalid: bool,
    client: ClientSetup, service: Request -> Result<Response, string>,
    render: map<string, seq<Item>> -> Result<string, string>)
    requires AddPhoneNumbersFromConfigFile(args, file).Ok?
    ensures var cleaned := Clean(AddPhoneNumbersFromConfigFile(args, file).value).cleaned;
      RunE(args, file, short, onlyInvalid, client, service, render).sent
        == if cleaned == [] then [] else ExecuteValidate(Args(cleaned, short, onlyInvalid), client, service).sent
  {
  }

  lemma PrefixOfNumbers(sent: seq<Request>, requests: seq<Request>)
    requires sent <= requests
    ensures RequestedNumbers(sent) <= RequestedNumbers(requests)
  {
  }

  /** The check inside ExecuteValidate never fires from the command: the run
      only validates a non-empty list. */
  lemma NeverInvalidArgs(
    args: seq<string>, file: FileSource, short: bool, onlyInvalid: bool,
    client: ClientSetup, service: Request -> Result<Response, string>,
    render: map<string, seq<Item>> -> Result<string, string>)
    ensures RunE(args, file, short, onlyInvalid, client, service, render).status != Failed(InvalidArgs)
  {
  }

  /** A failing validation is the run's outcome and nothing is printed, even
      when earlier calls succeeded. */
  lemma ServiceFailureNotPrinted(
    args: seq<string>, file: FileSource, short: bool, onlyInvalid: bool,
    client: ClientSetup, service: Request -> Result<Response, string>,
    render: map<string, seq<Item>> -> Result<string, string>)
    requires AddPhoneNumbersFromConfigFile(args, file).Ok?
    requires var cleaned := Clean(AddPhoneNumbersFromConfigFile(args, file).value).cleaned;
      cleaned != [] && ExecuteValidate(Args(cleaned, short, onlyInvalid), client, service).err.Some?
    ensures var cleaned := Clean(AddPhoneNumbersFromConfigFile(args, file).value).cleaned;
      RunE(args, file, short, onlyInvalid, client, service, render).status
        == Failed(ExecuteValidate(Args(cleaned, short, onlyInvalid), client, service).err.value)
  {
  }

  /** A printed run rendered the aggregate of every response, added in the
      order the cleaned numbers were sent. */
  lemma PrintedIsFullAggregate(
    args: seq<string>, file: FileSource, short: bool, onlyInvalid: bool,
    client: ClientSetup, service: Request -> Result<Response, string>,
    render: map<string, seq<Item>> -> Result<string, string>)
    requires RunE(args, file, short, onlyInvalid, client, service, render).status.Printed?
    ensures AddPhoneNumbersFromConfigFile(args, file).Ok?
    ensures var cleaned := Clean(AddPhoneNumbersFromConfigFile(args, file).value).cleaned;
      var requests := PhoneNumberValidateRequests(Args(cleaned, short, onlyInvalid));
      && cleaned != []
      && client.ClientReady?
      && RunE(args, file, short, onlyInvalid, client, service, render).sent == requests
      && (forall i :: 0 <= i < |requests| ==> service(requests[i]).Ok?)
      && render(ResultFields(AddAll(New(if short then Short else Long, FilterFor(onlyInvalid)),
                                    Responses(service, requests))))
         == Ok(RunE(args, file, short, onlyInvalid, client, service, render).status.text)
  {
    var candidates := AddPhoneNumbersFromConfigFile(args, file).value;
    var cleaned := Clean(candidates).cleaned;
    var a := Args(cleaned, short, onlyInvalid);
    AllSucceedIfNoError(a, client, service);
  }

  /** ExecuteValidate reports no error only when the client was ready and every call succeeded. */
  lemma AllSucceedIfNoError(a: Args, client: ClientSetup, service: Request -> Result<Response, string>)
    requires ExecuteValidate(a, client, service).err.None?
    ensures Validate(a) && client.ClientReady?
    ensures forall i :: 0 <= i < |a.phoneNumbers| ==> service(PhoneNumberValidateRequests(a)[i]).Ok?
    ensures ExecuteValidate(a, client, service).sent == PhoneNumberValidateRequests(a)
    ensures ExecuteValidate(a, client, service).result
      == Some(AddAll(New(if a.short then Short else Long, FilterFor(a.onlyInvalid)),
                     Responses(service, PhoneNumberValidateRequests(a))))
  {
    AllSucceed(a, client, service);
  }
}
