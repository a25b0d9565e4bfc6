/** ValidateCmdCliArgs of cmd/validate/validateCmdCliArgs.go: the arguments
    ExecuteValidate receives, their check, and the requests built from them. */
module CliArgs {

  datatype Args = Args(phoneNumbers: seq<string>, short: bool, onlyInvalid: bool)

  /** A PhoneNumberValidateInput: one number to validate. */
  datatype Request = Request(phoneNumber: string)

  /** The arguments are usable iff there is at least one phone number. */
  function Validate(args: Args): (isValid: bool)
    ensures isValid <==> args.phoneNumbers != []
  {
    |args.phoneNumbers| > 0
  }

  /** One request per phone number, appended in list order. */
  function PhoneNumberValidateRequests(args: Args): (requests: seq<Request>)
    ensures |requests| == |args.phoneNumbers|
    ensures forall i :: 0 <= i < |requests| ==> requests[i].phoneNumber == args.phoneNumbers[i]
    decreases |args.phoneNumbers|
  {
    var ns := args.phoneNumbers;
    if |ns| == 0 then []
    else PhoneNumberValidateRequests(args.(phoneNumbers := ns[..|ns| - 1])) + [Request(ns[|ns| - 1])]
  }

  /** The numbers the requests carry. */
  function RequestedNumbers(requests: seq<Request>): (ns: seq<string>)
    ensures |ns| == |requests|
    ensures forall i :: 0 <= i < |ns| ==> ns[i] == requests[i].phoneNumber
  {
    seq(|requests|, i requires 0 <= i < |requests| => requests[i].phoneNumber)
  }

  /** Building requests neither filters nor reorders nor merges repeats: the
      numbers read back from the requests are the arguments' list itself. */
  lemma RequestsRoundTrip(args: Args)
    ensures RequestedNumbers(PhoneNumberValidateRequests(args)) == args.phoneNumbers
    ensures multiset(RequestedNumbers(PhoneNumberValidateRequests(args))) == multiset(args.phoneNumbers)
  {
  }
}
